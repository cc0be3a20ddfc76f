/** Decoding what was encoded gives the message back: pb_encode.c against pb_decode.c. */
module PbRoundTrip {
  import opened Options
  import opened ByteStrings
  import opened Coding
  import opened PbMessages
  import opened PbDecode

  lemma TagRoundTrip(tag: nat, wireType: nat, body: Bytes)
    requires 0 < tag < MAX_TAG && wireType < 8
    ensures GetTag(EncodeTag(tag, wireType) + body) == Tag(tag, wireType, body)
  {
    hide PbVarint32;
    PbVarint32RoundTrip(8 * tag + wireType, body);
  }

  lemma SubstreamRoundTrip(sub: Bytes, rest: Bytes)
    requires |sub| < TWO_32
    ensures Substream(PutLengthPrefixed(sub) + rest) == Parsed(sub, rest)
  {
    hide PbVarint32;
    assert PutLengthPrefixed(sub) + rest == EncodeVarint(|sub|) + (sub + rest);
    PbVarint32RoundTrip(|sub|, sub + rest);
  }

  lemma BytesRoundTrip(b: Bytes, rest: Bytes)
    requires |b| < TWO_32
    ensures PbVarint32(PutLengthPrefixed(b) + rest) == Parsed(|b|, b + rest)
    ensures (b + rest)[..|b|] == b && (b + rest)[|b|..] == rest
  {
    assert PutLengthPrefixed(b) + rest == EncodeVarint(|b|) + (b + rest);
    PbVarint32RoundTrip(|b|, b + rest);
  }

  /** A submessage is decoded over the defaults; other values ignore what was there. */
  ghost predicate FreshStart(k: Kind, start: seq<Content>) {
    k.MessageKind? ==> start == Defaults(k.fields)
  }

  /** A string that fills its array has no terminator: it is sent, and refused when it comes back. */
  lemma StringRoundTripIffTerminated(size: nat, v: Value, rest: Bytes)
    requires ValueShape(StringKind(size), v) && size < TWO_32
    ensures DecodeValue(StringKind(size), [], EncodeValue(StringKind(size), v) + rest) == Parsed(v, rest)
       <==> |v.bytes| < size
  {
    hide PbVarint32;
    BytesRoundTrip(v.bytes, rest);
  }

  // ----- messages that send nothing -----

  /** Leaving a zero submessage out loses nothing: decoding starts from the same zeros. */
  lemma ZeroFieldIsInit(f: Field, v: Value)
    requires FieldOk(f) && FieldShape(f, v) && ZeroField(f, v)
    requires f.kind.MessageKind? || f.kind.FixedBytesKind? || ZeroValue(f.kind, f.init)
    ensures CanonField(f, v) == InitValue(f)
    decreases f, 0
  {
    assert CanonField(f, v) == CanonValue(f.kind, v);
    if f.kind.MessageKind? {
      ZeroMessageIsDefault(f.kind.fields, v.contents);
    }
  }

  lemma ZeroMessageIsDefault(slots: seq<Slot>, m: seq<Content>)
    requires DescriptorOk(slots) && MessageShape(slots, m) && ZeroMessage(slots, m)
    ensures Canonical(slots, m) == Defaults(slots)
    decreases slots, 0
  {
    forall i | 0 <= i < |slots| ensures Canonical(slots, m)[i] == Defaults(slots)[i] {
      ZeroSlotIsInit(slots[i], m[i]);
    }
  }

  lemma ZeroSlotIsInit(s: Slot, c: Content)
    requires SlotOk(s) && SlotShape(s, c) && ZeroSlot(s, c)
    ensures CanonSlot(s, c) == InitSlot(s)
    decreases s, 0
  {
    match s
    case Single(f, Singular) => ZeroFieldIsInit(f, c.v);
    case Single(_, _) =>
    case Union(members) =>
      forall j | 0 <= j < |members| ensures members[j].tag != c.which {
        assert FieldOk(members[j]);
      }
      AbsentUnion(members, c);
  }

  lemma {:induction false} AbsentUnion(members: seq<Field>, c: Content)
    requires SlotShape(Union(members), c)
    requires forall j :: 0 <= j < |members| ==> members[j].tag != c.which
    ensures CanonUnion(members, c) == OneOf(0, Int(0)) && EncodeUnion(members, c) == []
    decreases |members|
  {
    if members != [] {
      AbsentUnion(members[1..], c);
    }
  }

  lemma {:induction false} PresentUnion(members: seq<Field>, c: Content, j: nat)
    requires SlotShape(Union(members), c) && MembersDiffer(members)
    requires j < |members| && members[j].tag == c.which
    ensures FieldShape(members[j], c.v)
    ensures CanonUnion(members, c) == OneOf(c.which, CanonField(members[j], c.v))
    ensures EncodeUnion(members, c) == EncodeField(members[j], c.v)
    decreases |members|
  {
    if j == 0 {
      forall i | 0 <= i < |members[1..]| ensures members[1..][i].tag != c.which {
        assert TagsDifferAt(members, 0, i + 1);
      }
      AbsentUnion(members[1..], c);
    } else {
      assert TagsDifferAt(members, 0, j);
      assert members[1..][j - 1] == members[j];
      forall a, b ensures TagsDifferAt(members[1..], a, b) {
        assert TagsDifferAt(members, a + 1, b + 1);
      }
      PresentUnion(members[1..], c, j - 1);
    }
  }

  // ----- values, arrays, slots, messages -----

  lemma {:induction false} ValueRoundTrip(k: Kind, v: Value, start: seq<Content>, rest: Bytes)
    requires KindOk(k) && ValueShape(k, v) && Within(true, k, v) && |EncodeValue(k, v)| < TWO_32
    requires StartShape(k, start) && FreshStart(k, start)
    ensures DecodeValue(k, start, EncodeValue(k, v) + rest) == Parsed(CanonValue(k, v), rest)
    decreases k, 0
  {
    hide PbVarint32, GetVarint64;
    match k
    case BoolKind =>
      PbVarint32RoundTrip(v.i, rest);
    case Fixed32Kind =>
      Fixed32RoundTrip(v.i, rest);
    case Fixed64Kind =>
      Fixed64RoundTrip(v.i, rest);
    case BytesKind(_) =>
      BytesRoundTrip(v.bytes, rest);
    case StringKind(_) =>
      BytesRoundTrip(v.bytes, rest);
    case FixedBytesKind(size) =>
      BytesRoundTrip(v.bytes, rest);
    case MessageKind(fields) =>
      MessageRoundTrip(fields, v.contents);
      SubstreamRoundTrip(Encode(fields, v.contents), rest);
    case _ =>
      NumberRoundTrip(k, v.i);
      Varint64RoundTrip(Sent(k, v.i), rest);
  }

  lemma {:induction false} FieldRoundTrip(f: Field, v: Value, rest: Bytes)
    requires FieldOk(f) && FieldShape(f, v) && FieldWithin(true, f, v) && |EncodeField(f, v)| < TWO_32
    ensures FieldShape(f, InitValue(f))
    ensures StartShape(f.kind, Contents(InitValue(f)))
    ensures DecodeValue(f.kind, Contents(InitValue(f)), EncodeValue(f.kind, v) + rest) == Parsed(CanonField(f, v), rest)
    decreases f, 0
  {
    InitShape(f);
    StartOf(f, InitValue(f));
    ValueRoundTrip(f.kind, v, Contents(InitValue(f)), rest);
  }

  /** What follows a field: nothing if it cannot be read, else the rest of the message. */
  function AfterField(slots: seq<Slot>, cur: seq<Content>, seen: set<nat>, i: nat,
                      r: Parsed<Content>): Option<seq<Content>>
    requires DescriptorOk(slots) && MessageShape(slots, cur) && i < |slots|
    requires r.Parsed? ==> SlotShape(slots[i], r.value)
  {
    match r
    case Failed => None
    case Parsed(c, after) => Decode(slots, cur[i := c], seen + {i}, after)
  }

  /** A tag leads to its slot. */
  lemma OneField(slots: seq<Slot>, cur: seq<Content>, seen: set<nat>, i: nat, tag: nat, wireType: nat, body: Bytes)
    requires DescriptorOk(slots) && MessageShape(slots, cur) && i < |slots| && HasTag(slots[i], tag)
    requires 0 < tag < MAX_TAG && wireType < 8
    ensures SlotOk(slots[i]) && SlotShape(slots[i], cur[i])
    ensures Decode(slots, cur, seen, EncodeTag(tag, wireType) + body)
         == AfterField(slots, cur, seen, i, DecodeSlot(slots[i], cur[i], tag, wireType, body))
  {
    hide EncodeTag, GetTag, DecodeSlot, SlotShape, SlotOk, HasTag;
    TagRoundTrip(tag, wireType, body);
    assert Find(slots, tag) == i;
  }

  /** Reading `sent` at slot `i` leaves `c` there and goes on with what follows. */
  ghost predicate Reads(slots: seq<Slot>, cur: seq<Content>, seen: set<nat>, i: nat, sent: Bytes, c: Content,
                        rest: Bytes)
    requires DescriptorOk(slots) && MessageShape(slots, cur) && i < |slots|
    requires SlotShape(slots[i], c)
  {
    Decode(slots, cur, seen, sent + rest) == Decode(slots, cur[i := c], if sent == [] then seen else seen + {i}, rest)
  }

  lemma ReadsNothing(slots: seq<Slot>, cur: seq<Content>, seen: set<nat>, i: nat, c: Content, rest: Bytes)
    requires DescriptorOk(slots) && MessageShape(slots, cur) && i < |slots|
    requires SlotShape(slots[i], c) && cur[i] == c
    ensures Reads(slots, cur, seen, i, [], c, rest)
  {
    assert [] + rest == rest;
    assert cur[i := c] == cur;
  }

  /** A field that stands alone: required, present optional, or nonzero singular. */
  lemma {:induction false} SingleRoundTrip(slots: seq<Slot>, cur: seq<Content>, seen: set<nat>, i: nat, v: Value,
                                           rest: Bytes)
    requires DescriptorOk(slots) && MessageShape(slots, cur) && i < |slots| && slots[i].Single?
    requires !slots[i].rule.Repeated?
    requires cur[i] == InitSlot(slots[i]) && FieldShape(slots[i].field, v)
    requires FieldWithin(true, slots[i].field, v) && |EncodeField(slots[i].field, v)| < TWO_32
    ensures var w := CanonField(slots[i].field, v);
      var c := if slots[i].rule == Optional then Opt(true, w) else Plain(w);
      SlotShape(slots[i], c) && Reads(slots, cur, seen, i, EncodeField(slots[i].field, v), c, rest)
    decreases slots[i], 1
  {
    hide Decode, EncodeTag, EncodeValue, DecodeValue, TagsDiffer, CanonField;
    var f := slots[i].field;
    assert SlotOk(slots[i]);
    var body := EncodeValue(f.kind, v) + rest;
    assert EncodeField(f, v) + rest == EncodeTag(f.tag, WireType(f.kind)) + body;
    FieldRoundTrip(f, v, rest);
    OneField(slots, cur, seen, i, f.tag, WireType(f.kind), body);
  }

  /** The chosen member of a oneof, over storage that no member was chosen for yet. */
  lemma {:induction false} UnionRoundTrip(slots: seq<Slot>, cur: seq<Content>, seen: set<nat>, i: nat, c: Content,
                                          j: nat, rest: Bytes)
    requires DescriptorOk(slots) && MessageShape(slots, cur) && i < |slots| && slots[i].Union?
    requires cur[i] == InitSlot(slots[i]) && SlotShape(slots[i], c) && SlotWithin(true, slots[i], c)
    requires j < |slots[i].members| && slots[i].members[j].tag == c.which
    requires |EncodeSlot(slots[i], c)| < TWO_32
    ensures SlotShape(slots[i], CanonSlot(slots[i], c))
    ensures Reads(slots, cur, seen, i, EncodeSlot(slots[i], c), CanonSlot(slots[i], c), rest)
    decreases slots[i], 1
  {
    hide Decode, EncodeTag, EncodeValue, DecodeValue, TagsDiffer, CanonField;
    var members := slots[i].members;
    var f := members[j];
    assert SlotOk(slots[i]) && FieldOk(f);
    PresentUnion(members, c, j);
    var body := EncodeValue(f.kind, c.v) + rest;
    assert EncodeField(f, c.v) + rest == EncodeTag(f.tag, WireType(f.kind)) + body;
    assert FieldWithin(true, f, c.v);
    FieldRoundTrip(f, c.v, rest);
    OneField(slots, cur, seen, i, f.tag, WireType(f.kind), body);
    assert HasTag(slots[i], f.tag);
    TheMember(members, f.tag);
  }

  /** Reading the rest of a packed array behind its first `n` items. */
  lemma {:induction false} PackedRoundTrip(f: Field, max: nat, items: seq<Value>, n: nat)
    requires FieldOk(f) && Packable(f.kind) && n <= |items| <= max
    requires forall j :: 0 <= j < |items| ==> FieldShape(f, items[j])
    requires |EncodeItems(f, items[n..])| < TWO_32
    ensures DecodePacked(f, max, items[..n], EncodeItems(f, items[n..])) == Some(items)
    decreases f, 1, |items| - n
  {
    hide EncodeValue, DecodeValue;
    if n == |items| {
      assert items[..n] == items;
    } else {
      assert items[n..][1..] == items[n + 1..] && items[n..][0] == items[n];
      var sub := EncodeItems(f, items[n..]);
      assert sub == EncodeValue(f.kind, items[n]) + EncodeItems(f, items[n + 1..]);
      assert FieldShape(f, items[n]);
      PackedValueRoundTrip(f, items[n], EncodeItems(f, items[n + 1..]));
      assert items[..n] + [items[n]] == items[..n + 1];
      PackedRoundTrip(f, max, items, n + 1);
    }
  }

  lemma PackedValueRoundTrip(f: Field, v: Value, rest: Bytes)
    requires FieldOk(f) && Packable(f.kind) && FieldShape(f, v) && |EncodeValue(f.kind, v)| < TWO_32
    ensures KindOk(f.kind) && StartShape(f.kind, [])
    ensures DecodeValue(f.kind, [], EncodeValue(f.kind, v) + rest) == Parsed(v, rest)
    ensures CanonField(f, v) == v
    decreases f, 0
  {
    assert !f.kind.MessageKind?;
    ValueRoundTrip(f.kind, v, [], rest);
    assert CanonField(f, v) == CanonValue(f.kind, v);
  }

  /** Reading the items of an unpacked array behind the first `n`, one field each. */
  lemma {:induction false} EachRoundTrip(slots: seq<Slot>, cur: seq<Content>, seen: set<nat>, i: nat, items: seq<Value>,
                                         n: nat, rest: Bytes)
    requires DescriptorOk(slots) && MessageShape(slots, cur) && i < |slots| && slots[i].Single?
    requires slots[i].rule.Repeated? && !Packable(slots[i].field.kind) && n <= |items| <= slots[i].rule.max
    requires forall j :: 0 <= j < |items| ==> FieldShape(slots[i].field, items[j])
    requires forall j :: 0 <= j < |items| ==> FieldWithin(true, slots[i].field, items[j])
    requires cur[i] == Rep(CanonItems(slots[i].field, items[..n]))
    requires |EncodeEach(slots[i].field, items[n..])| < TWO_32
    ensures SlotShape(slots[i], Rep(CanonItems(slots[i].field, items)))
    ensures Reads(slots, cur, seen, i, EncodeEach(slots[i].field, items[n..]), Rep(CanonItems(slots[i].field, items)),
            rest)
    decreases slots[i], 1, |items| - n
  {
    hide Decode, EncodeTag, EncodeField, DecodeValue, TagsDiffer, CanonField;
    var f := slots[i].field;
    if n == |items| {
      assert items[..n] == items && items[n..] == [];
      assert SlotShape(slots[i], cur[i]);
      ReadsNothing(slots, cur, seen, i, cur[i], rest);
    } else {
      assert items[n..][1..] == items[n + 1..] && items[n..][0] == items[n];
      var tail := EncodeEach(f, items[n + 1..]);
      assert EncodeEach(f, items[n..]) == EncodeField(f, items[n]) + tail;
      assert EncodeEach(f, items[n..]) + rest == EncodeField(f, items[n]) + (tail + rest);
      OneItemRoundTrip(slots, cur, seen, i, items, n, tail + rest);
      var c := Rep(CanonItems(f, items[..n + 1]));
      EachRoundTrip(slots, cur[i := c], seen + {i}, i, items, n + 1, rest);
      assert cur[i := c][i := Rep(CanonItems(f, items))] == cur[i := Rep(CanonItems(f, items))];
      assert seen + {i} + {i} == seen + {i};
    }
  }

  lemma {:induction false} OneItemRoundTrip(slots: seq<Slot>, cur: seq<Content>, seen: set<nat>, i: nat,
                                            items: seq<Value>, n: nat, rest: Bytes)
    requires DescriptorOk(slots) && MessageShape(slots, cur) && i < |slots| && slots[i].Single?
    requires slots[i].rule.Repeated? && !Packable(slots[i].field.kind) && n < |items| <= slots[i].rule.max
    requires forall j :: 0 <= j < |items| ==> FieldShape(slots[i].field, items[j])
    requires FieldWithin(true, slots[i].field, items[n]) && |EncodeField(slots[i].field, items[n])| < TWO_32
    requires cur[i] == Rep(CanonItems(slots[i].field, items[..n]))
    ensures SlotShape(slots[i], Rep(CanonItems(slots[i].field, items[..n + 1])))
    ensures Decode(slots, cur, seen, EncodeField(slots[i].field, items[n]) + rest)
         == Decode(slots, cur[i := Rep(CanonItems(slots[i].field, items[..n + 1]))], seen + {i}, rest)
    decreases slots[i], 0
  {
    hide Decode, EncodeTag, EncodeValue, DecodeValue, TagsDiffer, CanonField;
    var f := slots[i].field;
    assert SlotOk(slots[i]);
    var body := EncodeValue(f.kind, items[n]) + rest;
    assert EncodeField(f, items[n]) + rest == EncodeTag(f.tag, WireType(f.kind)) + body;
    FieldRoundTrip(f, items[n], rest);
    OneField(slots, cur, seen, i, f.tag, WireType(f.kind), body);
    assert CanonItems(f, items[..n]) + [CanonField(f, items[n])] == CanonItems(f, items[..n + 1]);
  }

  /** A nonempty array. */
  lemma {:induction false} ArrayRoundTrip(slots: seq<Slot>, cur: seq<Content>, seen: set<nat>, i: nat, c: Content,
                                          rest: Bytes)
    requires DescriptorOk(slots) && MessageShape(slots, cur) && i < |slots| && slots[i].Single? &&
             slots[i].rule.Repeated?
    requires cur[i] == Rep([]) && SlotShape(slots[i], c) && SlotWithin(true, slots[i], c) && c.items != []
    requires |EncodeSlot(slots[i], c)| < TWO_32
    ensures SlotShape(slots[i], CanonSlot(slots[i], c))
    ensures Reads(slots, cur, seen, i, EncodeSlot(slots[i], c), CanonSlot(slots[i], c), rest)
    decreases slots[i], 2
  {
    hide Decode, EncodeTag, EncodeValue, DecodeValue, TagsDiffer, CanonField;
    var f, items := slots[i].field, c.items;
    assert SlotOk(slots[i]) && FieldOk(f);
    assert forall j :: 0 <= j < |items| ==> FieldShape(f, items[j]) && FieldWithin(true, f, items[j]);
    assert items[0..] == items && items[..0] == [];
    if Packable(f.kind) {
      var sub := EncodeItems(f, items);
      var body := PutLengthPrefixed(sub) + rest;
      assert EncodeSlot(slots[i], c) + rest == EncodeTag(f.tag, WT_STRING) + body;
      SubstreamRoundTrip(sub, rest);
      PackedRoundTrip(f, slots[i].rule.max, items, 0);
      NumbersAreCanonical(f, items);
      OneField(slots, cur, seen, i, f.tag, WT_STRING, body);
    } else {
      EachRoundTrip(slots, cur, seen, i, items, 0, rest);
    }
  }

  lemma NumbersAreCanonical(f: Field, items: seq<Value>)
    requires Packable(f.kind) && forall j :: 0 <= j < |items| ==> FieldShape(f, items[j])
    ensures CanonItems(f, items) == items
  {
    forall j | 0 <= j < |items| ensures CanonItems(f, items)[j] == items[j] {
      assert CanonField(f, items[j]) == CanonValue(f.kind, items[j]);
    }
  }

  lemma {:induction false} SlotRoundTrip(slots: seq<Slot>, cur: seq<Content>, seen: set<nat>, i: nat, c: Content,
                                         rest: Bytes)
    requires DescriptorOk(slots) && MessageShape(slots, cur) && i < |slots|
    requires cur[i] == InitSlot(slots[i]) && SlotShape(slots[i], c) && SlotWithin(true, slots[i], c)
    requires |EncodeSlot(slots[i], c)| < TWO_32
    ensures SlotShape(slots[i], CanonSlot(slots[i], c))
    ensures Reads(slots, cur, seen, i, EncodeSlot(slots[i], c), CanonSlot(slots[i], c), rest)
    decreases slots[i], 3
  {
    hide Reads, EncodeField, TagsDiffer, CanonField;
    assert SlotOk(slots[i]) && SlotShape(slots[i], cur[i]);
    match slots[i]
    case Union(members) =>
      if j :| 0 <= j < |members| && members[j].tag == c.which {
        UnionRoundTrip(slots, cur, seen, i, c, j, rest);
      } else {
        AbsentUnion(members, c);
        ReadsNothing(slots, cur, seen, i, cur[i], rest);
      }
    case Single(f, rule) =>
      if rule.Repeated? && c.items != [] {
        ArrayRoundTrip(slots, cur, seen, i, c, rest);
      } else if EncodeSlot(slots[i], c) != [] {
        SingleRoundTrip(slots, cur, seen, i, c.v, rest);
      } else {
        if rule == Singular {
          ZeroFieldIsInit(f, c.v);
        }
        assert rule.Repeated? ==> CanonItems(f, c.items) == [];
        ReadsNothing(slots, cur, seen, i, cur[i], rest);
      }
  }

  /** Decoding the encoding of a message into a struct with defaults gives the message, absent members aside. */
  lemma {:induction false} MessageRoundTrip(slots: seq<Slot>, m: seq<Content>)
    requires DescriptorOk(slots) && MessageShape(slots, m) && MessageWithin(true, slots, m)
    requires |Encode(slots, m)| < TWO_32
    ensures MessageShape(slots, Defaults(slots))
    ensures Decode(slots, Defaults(slots), {}, Encode(slots, m)) == Some(Canonical(slots, m))
    decreases slots, 1
  {
    DefaultsShape(slots);
    assert slots[0..] == slots && m[0..] == m;
    SlotsRoundTrip(slots, m, 0, Defaults(slots), {});
  }

  /** The slots before `i` have been read. */
  ghost predicate ReadBefore(slots: seq<Slot>, m: seq<Content>, i: nat, cur: seq<Content>, seen: set<nat>)
    requires MessageShape(slots, m)
  {
    |cur| == |slots|
    && (forall j :: 0 <= j < |slots| ==> cur[j] == if j < i then CanonSlot(slots[j], m[j]) else InitSlot(slots[j]))
    && (forall j :: 0 <= j < i && j < |slots| && IsRequired(slots[j]) ==> j in seen)
  }

  lemma {:induction false} SlotsRoundTrip(slots: seq<Slot>, m: seq<Content>, i: nat, cur: seq<Content>, seen: set<nat>)
    requires DescriptorOk(slots) && MessageShape(slots, m) && MessageWithin(true, slots, m) && i <= |slots|
    requires MessageShape(slots, cur) && ReadBefore(slots, m, i, cur, seen)
    requires MessageShape(slots[i..], m[i..]) && |Encode(slots[i..], m[i..])| < TWO_32
    ensures Decode(slots, cur, seen, Encode(slots[i..], m[i..])) == Some(Canonical(slots, m))
    decreases slots, 0, |slots| - i
  {
    hide EncodeSlot, SlotShape, TagsDiffer, SlotWithin, CanonSlot, InitSlot;
    if i == |slots| {
      assert cur == Canonical(slots, m);
    } else {
      var sent, rest := EncodeSlot(slots[i], m[i]), Encode(slots[i + 1..], m[i + 1..]);
      assert slots[i..][1..] == slots[i + 1..] && m[i..][1..] == m[i + 1..];
      assert Encode(slots[i..], m[i..]) == sent + rest;
      SlotRoundTrip(slots, cur, seen, i, m[i], rest);
      var now := if sent == [] then seen else seen + {i};
      RequiredIsSent(slots[i], m[i]);
      SlotsRoundTrip(slots, m, i + 1, cur[i := CanonSlot(slots[i], m[i])], now);
    }
  }

  lemma RequiredIsSent(s: Slot, c: Content)
    requires SlotShape(s, c)
    ensures IsRequired(s) ==> EncodeSlot(s, c) != []
  {
  }

  // ----- what does not come back -----

  /** A string without terminator is refused, and with it every message around it. */
  lemma {:induction false} ValueRefused(k: Kind, v: Value, start: seq<Content>, rest: Bytes)
    requires KindOk(k) && ValueShape(k, v) && Within(false, k, v) && !Within(true, k, v)
    requires |EncodeValue(k, v)| < TWO_32 && StartShape(k, start) && FreshStart(k, start)
    ensures DecodeValue(k, start, EncodeValue(k, v) + rest) == Failed
    decreases k, 0
  {
    hide PbVarint32;
    if k.StringKind? {
      BytesRoundTrip(v.bytes, rest);
    } else {
      MessageRefused(k.fields, v.contents);
      SubstreamRoundTrip(Encode(k.fields, v.contents), rest);
    }
  }

  lemma {:induction false} FieldRefused(f: Field, v: Value, rest: Bytes)
    requires FieldOk(f) && FieldShape(f, v) && FieldWithin(false, f, v) && !FieldWithin(true, f, v)
    requires |EncodeField(f, v)| < TWO_32
    ensures FieldShape(f, InitValue(f)) && StartShape(f.kind, Contents(InitValue(f)))
    ensures DecodeValue(f.kind, Contents(InitValue(f)), EncodeValue(f.kind, v) + rest) == Failed
    decreases f, 0
  {
    InitShape(f);
    StartOf(f, InitValue(f));
    ValueRefused(f.kind, v, Contents(InitValue(f)), rest);
  }

  /** The next item of an array whose earlier items have been read. */
  lemma {:induction false} ItemRefused(slots: seq<Slot>, cur: seq<Content>, seen: set<nat>, i: nat, v: Value,
                                       rest: Bytes)
    requires DescriptorOk(slots) && MessageShape(slots, cur) && i < |slots| && slots[i].Single?
    requires slots[i].rule.Repeated? && !Packable(slots[i].field.kind)
    requires FieldShape(slots[i].field, v) && FieldWithin(false, slots[i].field, v) &&
             !FieldWithin(true, slots[i].field, v)
    requires |EncodeField(slots[i].field, v)| < TWO_32
    ensures Decode(slots, cur, seen, EncodeField(slots[i].field, v) + rest) == None
    decreases slots[i], 0
  {
    hide Decode, EncodeTag, EncodeValue, DecodeValue, TagsDiffer;
    var f := slots[i].field;
    assert SlotOk(slots[i]) && SlotShape(slots[i], cur[i]);
    var body := EncodeValue(f.kind, v) + rest;
    assert EncodeField(f, v) + rest == EncodeTag(f.tag, WireType(f.kind)) + body;
    FieldRefused(f, v, rest);
    OneField(slots, cur, seen, i, f.tag, WireType(f.kind), body);
  }

  /** An unpacked array fails at its first unterminated item, if not before. */
  lemma {:induction false} EachRefused(slots: seq<Slot>, cur: seq<Content>, seen: set<nat>, i: nat, items: seq<Value>,
                                       n: nat, bad: nat, rest: Bytes)
    requires DescriptorOk(slots) && MessageShape(slots, cur) && i < |slots| && slots[i].Single?
    requires slots[i].rule.Repeated? && !Packable(slots[i].field.kind) && n <= bad < |items| <= slots[i].rule.max
    requires forall j :: 0 <= j < |items| ==> FieldShape(slots[i].field, items[j])
    requires forall j :: 0 <= j < |items| ==> FieldWithin(false, slots[i].field, items[j])
    requires !FieldWithin(true, slots[i].field, items[bad])
    requires cur[i] == Rep(CanonItems(slots[i].field, items[..n]))
    requires |EncodeEach(slots[i].field, items[n..])| < TWO_32
    ensures Decode(slots, cur, seen, EncodeEach(slots[i].field, items[n..]) + rest) == None
    decreases slots[i], 1, |items| - n
  {
    hide Decode, EncodeTag, EncodeField, DecodeValue, TagsDiffer, CanonField;
    var f := slots[i].field;
    assert items[n..][1..] == items[n + 1..] && items[n..][0] == items[n];
    var tail := EncodeEach(f, items[n + 1..]);
    assert EncodeEach(f, items[n..]) == EncodeField(f, items[n]) + tail;
    assert EncodeEach(f, items[n..]) + rest == EncodeField(f, items[n]) + (tail + rest);
    if FieldWithin(true, f, items[n]) {
      OneItemRoundTrip(slots, cur, seen, i, items, n, tail + rest);
      var c := Rep(CanonItems(f, items[..n + 1]));
      EachRefused(slots, cur[i := c], seen + {i}, i, items, n + 1, bad, rest);
    } else {
      ItemRefused(slots, cur, seen, i, items[n], tail + rest);
    }
  }

  /** A field that stands alone. */
  lemma {:induction false} SingleRefused(slots: seq<Slot>, cur: seq<Content>, seen: set<nat>, i: nat, v: Value,
                                         rest: Bytes)
    requires DescriptorOk(slots) && MessageShape(slots, cur) && i < |slots| && slots[i].Single?
    requires !slots[i].rule.Repeated? && cur[i] == InitSlot(slots[i])
    requires FieldShape(slots[i].field, v) && FieldWithin(false, slots[i].field, v) &&
             !FieldWithin(true, slots[i].field, v)
    requires |EncodeField(slots[i].field, v)| < TWO_32
    ensures Decode(slots, cur, seen, EncodeField(slots[i].field, v) + rest) == None
    decreases slots[i], 1
  {
    hide Decode, EncodeTag, EncodeValue, DecodeValue, TagsDiffer;
    var f := slots[i].field;
    assert SlotOk(slots[i]);
    var body := EncodeValue(f.kind, v) + rest;
    assert EncodeField(f, v) + rest == EncodeTag(f.tag, WireType(f.kind)) + body;
    FieldRefused(f, v, rest);
    OneField(slots, cur, seen, i, f.tag, WireType(f.kind), body);
  }

  /** The chosen member of a oneof. */
  lemma {:induction false} UnionRefused(slots: seq<Slot>, cur: seq<Content>, seen: set<nat>, i: nat, c: Content, j: nat,
                                        rest: Bytes)
    requires DescriptorOk(slots) && MessageShape(slots, cur) && i < |slots| && slots[i].Union?
    requires cur[i] == InitSlot(slots[i]) && SlotShape(slots[i], c) && SlotWithin(false, slots[i], c)
    requires j < |slots[i].members| && slots[i].members[j].tag == c.which
    requires FieldShape(slots[i].members[j], c.v) && !FieldWithin(true, slots[i].members[j], c.v)
    requires |EncodeSlot(slots[i], c)| < TWO_32
    ensures Decode(slots, cur, seen, EncodeSlot(slots[i], c) + rest) == None
    decreases slots[i], 1
  {
    hide Decode, EncodeTag, EncodeValue, DecodeValue, TagsDiffer, CanonField;
    var members := slots[i].members;
    var f := members[j];
    assert SlotOk(slots[i]) && FieldOk(f);
    PresentUnion(members, c, j);
    var body := EncodeValue(f.kind, c.v) + rest;
    assert EncodeField(f, c.v) + rest == EncodeTag(f.tag, WireType(f.kind)) + body;
    assert FieldWithin(false, f, c.v);
    FieldRefused(f, c.v, rest);
    OneField(slots, cur, seen, i, f.tag, WireType(f.kind), body);
    assert HasTag(slots[i], f.tag);
    TheMember(members, f.tag);
  }

  lemma {:induction false} SlotRefused(slots: seq<Slot>, cur: seq<Content>, seen: set<nat>, i: nat, c: Content,
                                       rest: Bytes)
    requires DescriptorOk(slots) && MessageShape(slots, cur) && i < |slots|
    requires cur[i] == InitSlot(slots[i]) && SlotShape(slots[i], c)
    requires SlotWithin(false, slots[i], c) && !SlotWithin(true, slots[i], c)
    requires |EncodeSlot(slots[i], c)| < TWO_32
    ensures Decode(slots, cur, seen, EncodeSlot(slots[i], c) + rest) == None
    decreases slots[i], 3
  {
    hide Decode, EncodeField, TagsDiffer, CanonField;
    match slots[i]
    case Union(members) =>
      var j :| 0 <= j < |members| && members[j].tag == c.which && !FieldWithin(true, members[j], c.v);
      UnionRefused(slots, cur, seen, i, c, j, rest);
    case Single(f, rule) =>
      if rule.Repeated? {
        var bad :| 0 <= bad < |c.items| && !FieldWithin(true, f, c.items[bad]);
        assert FieldWithin(true, f, c.items[bad]) == Within(true, f.kind, c.items[bad]);
        assert CanonItems(f, c.items[..0]) == [];
        assert c.items[0..] == c.items;
        EachRefused(slots, cur, seen, i, c.items, 0, bad, rest);
      } else {
        SingleRefused(slots, cur, seen, i, c.v, rest);
      }
  }

  lemma {:induction false} MessageRefused(slots: seq<Slot>, m: seq<Content>)
    requires DescriptorOk(slots) && MessageShape(slots, m)
    requires MessageWithin(false, slots, m) && !MessageWithin(true, slots, m)
    requires |Encode(slots, m)| < TWO_32
    ensures MessageShape(slots, Defaults(slots))
    ensures Decode(slots, Defaults(slots), {}, Encode(slots, m)) == None
    decreases slots, 1
  {
    DefaultsShape(slots);
    assert slots[0..] == slots && m[0..] == m;
    var bad :| 0 <= bad < |slots| && !SlotWithin(true, slots[bad], m[bad]);
    SlotsRefused(slots, m, 0, bad, Defaults(slots), {});
  }

  lemma {:induction false} SlotsRefused(slots: seq<Slot>, m: seq<Content>, i: nat, bad: nat, cur: seq<Content>,
                                        seen: set<nat>)
    requires DescriptorOk(slots) && MessageShape(slots, m) && MessageWithin(false, slots, m) && i <= bad < |slots|
    requires !SlotWithin(true, slots[bad], m[bad])
    requires MessageShape(slots, cur) && ReadBefore(slots, m, i, cur, seen)
    requires MessageShape(slots[i..], m[i..]) && |Encode(slots[i..], m[i..])| < TWO_32
    ensures Decode(slots, cur, seen, Encode(slots[i..], m[i..])) == None
    decreases slots, 0, |slots| - i
  {
    hide EncodeSlot, SlotShape, TagsDiffer, SlotWithin, CanonSlot, InitSlot;
    var sent, rest := EncodeSlot(slots[i], m[i]), Encode(slots[i + 1..], m[i + 1..]);
    assert slots[i..][1..] == slots[i + 1..] && m[i..][1..] == m[i + 1..];
    assert Encode(slots[i..], m[i..]) == sent + rest;
    if SlotWithin(true, slots[i], m[i]) {
      SlotRoundTrip(slots, cur, seen, i, m[i], rest);
      var now := if sent == [] then seen else seen + {i};
      RequiredIsSent(slots[i], m[i]);
      SlotsRefused(slots, m, i + 1, bad, cur[i := CanonSlot(slots[i], m[i])], now);
    } else {
      SlotRefused(slots, cur, seen, i, m[i], rest);
    }
  }

  /**
   What the encoder sends comes back if and only if every string sent is terminated within its array; otherwise the
   decoder refuses the whole message.
   */
  lemma RoundTripIffTerminated(slots: seq<Slot>, m: seq<Content>)
    requires DescriptorOk(slots) && MessageShape(slots, m) && MessageWithin(false, slots, m)
    requires |Encode(slots, m)| < TWO_32
    ensures DecodeMessage(slots, Encode(slots, m)) == Some(Canonical(slots, m)) <==> MessageWithin(true, slots, m)
    ensures DecodeMessage(slots, Encode(slots, m)) == None <==> !MessageWithin(true, slots, m)
  {
    if MessageWithin(true, slots, m) {
      MessageRoundTrip(slots, m);
    } else {
      MessageRefused(slots, m);
    }
  }
}
