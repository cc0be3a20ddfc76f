/** Descriptors, message structs and the wire format of nanopb: pb.h and pb_encode.c, static allocation only. */
module PbMessages {
  import opened ByteStrings
  import opened Coding

  datatype Width = W8 | W16 | W32 | W64

  /** PB_LTYPE with the data_size of a struct member; BytesKind counts what the array holds besides its size. */
  datatype Kind =
    | BoolKind
    | IntKind(width: Width)
    | UIntKind(width: Width)
    | SIntKind(width: Width)
    | Fixed32Kind
    | Fixed64Kind
    | BytesKind(capacity: nat)
    | StringKind(size: nat)
    | MessageKind(fields: seq<Slot>)
    | FixedBytesKind(size: nat)

  /** PB_HTYPE without ONEOF; Singular is the proto3 form of OPTIONAL that has no has_ member. */
  datatype Rule = Required | Optional | Singular | Repeated(max: nat)

  /** `init` is what a member that is no submessage is set to before decoding. */
  datatype Field = Field(tag: nat, kind: Kind, init: Value)

  /** The fields that share storage: one, or the members of a oneof. */
  datatype Slot = Single(field: Field, rule: Rule) | Union(members: seq<Field>)

  /** A char array is given by its bytes before the terminator, or all of them when it has none. */
  datatype Value = Int(i: int) | Blob(bytes: Bytes) | Msg(contents: seq<Content>)

  datatype Content =
    | Plain(v: Value)
    | Opt(has: bool, v: Value)
    | Rep(items: seq<Value>)
    | OneOf(which: nat, v: Value)

  // ----- what the struct types guarantee -----

  function Range(w: Width): nat {
    match w
    case W8 => 0x100
    case W16 => 0x1_0000
    case W32 => TWO_32
    case W64 => TWO_64
  }

  predicate SignedFits(w: Width, i: int) {
    -2 * i <= Range(w) && 2 * i < Range(w)
  }

  predicate ValueShape(k: Kind, v: Value)
    decreases k, 0
  {
    match k
    case BoolKind => v.Int? && 0 <= v.i <= 1
    case IntKind(w) => v.Int? && SignedFits(w, v.i)
    case UIntKind(w) => v.Int? && 0 <= v.i < Range(w)
    case SIntKind(w) => v.Int? && SignedFits(w, v.i)
    case Fixed32Kind => v.Int? && 0 <= v.i < TWO_32
    case Fixed64Kind => v.Int? && 0 <= v.i < TWO_64
    case BytesKind(_) => v.Blob?
    case StringKind(size) => v.Blob? && |v.bytes| <= size && 0 !in v.bytes
    case MessageKind(fields) => v.Msg? && MessageShape(fields, v.contents)
    case FixedBytesKind(size) => v.Blob? && |v.bytes| == size
  }

  predicate MessageShape(slots: seq<Slot>, m: seq<Content>)
    decreases slots, 0
  {
    |m| == |slots| && forall i :: 0 <= i < |slots| ==> SlotShape(slots[i], m[i])
  }

  predicate SlotShape(s: Slot, c: Content)
    decreases s, 0
  {
    match s
    case Single(f, Required) => c.Plain? && FieldShape(f, c.v)
    case Single(f, Singular) => c.Plain? && FieldShape(f, c.v)
    case Single(f, Optional) => c.Opt? && FieldShape(f, c.v)
    case Single(f, Repeated(_)) => c.Rep? && forall j :: 0 <= j < |c.items| ==> FieldShape(f, c.items[j])
    case Union(members) =>
      c.OneOf? && forall j :: 0 <= j < |members| && members[j].tag == c.which ==> FieldShape(members[j], c.v)
  }

  predicate FieldShape(f: Field, v: Value)
    decreases f, 0
  {
    ValueShape(f.kind, v)
  }

  // ----- the limits that encoding and decoding check -----

  /** What the encoder checks of a value it sends; `strict` also asks for terminated strings, as the decoder does. */
  predicate Within(strict: bool, k: Kind, v: Value)
    requires ValueShape(k, v)
    decreases k, 0
  {
    match k
    case BytesKind(capacity) => |v.bytes| <= capacity
    case StringKind(size) => strict ==> |v.bytes| < size
    case MessageKind(fields) => MessageWithin(strict, fields, v.contents)
    case _ => true
  }

  predicate MessageWithin(strict: bool, slots: seq<Slot>, m: seq<Content>)
    requires MessageShape(slots, m)
    decreases slots, 0
  {
    forall i :: 0 <= i < |slots| ==> SlotWithin(strict, slots[i], m[i])
  }

  predicate SlotWithin(strict: bool, s: Slot, c: Content)
    requires SlotShape(s, c)
    decreases s, 0
  {
    match s
    case Single(f, Required) => FieldWithin(strict, f, c.v)
    case Single(f, Singular) => ZeroField(f, c.v) || FieldWithin(strict, f, c.v)
    case Single(f, Optional) => c.has ==> FieldWithin(strict, f, c.v)
    case Single(f, Repeated(max)) =>
      |c.items| <= max && forall j :: 0 <= j < |c.items| ==> FieldWithin(strict, f, c.items[j])
    case Union(members) =>
      forall j :: 0 <= j < |members| && members[j].tag == c.which ==> FieldWithin(strict, members[j], c.v)
  }

  predicate FieldWithin(strict: bool, f: Field, v: Value)
    requires FieldShape(f, v)
    decreases f, 0
  {
    Within(strict, f.kind, v)
  }

  // ----- pb_check_proto3_default_value -----

  predicate ZeroValue(k: Kind, v: Value)
    requires ValueShape(k, v)
    decreases k, 0
  {
    match k
    case BytesKind(_) => v.bytes == []
    case StringKind(_) => v.bytes == []
    case FixedBytesKind(size) => size == 0
    case MessageKind(fields) => ZeroMessage(fields, v.contents)
    case _ => v.i == 0
  }

  predicate ZeroMessage(slots: seq<Slot>, m: seq<Content>)
    requires MessageShape(slots, m)
    decreases slots, 0
  {
    forall i :: 0 <= i < |slots| ==> ZeroSlot(slots[i], m[i])
  }

  predicate ZeroSlot(s: Slot, c: Content)
    requires SlotShape(s, c)
    decreases s, 0
  {
    match s
    case Single(f, Required) => false
    case Single(f, Singular) => ZeroField(f, c.v)
    case Single(f, Optional) => !c.has
    case Single(f, Repeated(_)) => c.items == []
    case Union(members) => c.which == 0
  }

  predicate ZeroField(f: Field, v: Value)
    requires FieldShape(f, v)
    decreases f, 0
  {
    ZeroValue(f.kind, v)
  }

  // ----- the wire format -----

  const WT_VARINT: nat := 0
  const WT_64BIT: nat := 1
  const WT_STRING: nat := 2
  const WT_32BIT: nat := 5

  function WireType(k: Kind): (wt: nat)
    ensures wt < 8
  {
    match k
    case BoolKind => WT_VARINT
    case IntKind(_) => WT_VARINT
    case UIntKind(_) => WT_VARINT
    case SIntKind(_) => WT_VARINT
    case Fixed32Kind => WT_32BIT
    case Fixed64Kind => WT_64BIT
    case _ => WT_STRING
  }

  predicate Packable(k: Kind) {
    WireType(k) != WT_STRING
  }

  /** Two's complement for int32 and int64, zigzag for sint32 and sint64. */
  function Sent(k: Kind, i: int): nat
    requires ValueShape(k, Int(i))
    requires WireType(k) == WT_VARINT
  {
    match k
    case IntKind(_) => if i < 0 then i + TWO_64 else i
    case SIntKind(_) => if i < 0 then -2 * i - 1 else 2 * i
    case _ => i
  }

  function EncodeTag(tag: nat, wireType: nat): (s: Bytes)
    ensures |s| > 0
  {
    EncodeVarint(8 * tag + wireType)
  }

  function EncodeValue(k: Kind, v: Value): (s: Bytes)
    requires ValueShape(k, v)
    ensures |s| > 0
    decreases k, 0
  {
    match k
    case Fixed32Kind => EncodeFixed32(v.i)
    case Fixed64Kind => EncodeFixed64(v.i)
    case BytesKind(_) => PutLengthPrefixed(v.bytes)
    case StringKind(_) => PutLengthPrefixed(v.bytes)
    case FixedBytesKind(_) => PutLengthPrefixed(v.bytes)
    case MessageKind(fields) => PutLengthPrefixed(Encode(fields, v.contents))
    case _ => EncodeVarint(Sent(k, v.i))
  }

  function EncodeField(f: Field, v: Value): (s: Bytes)
    requires FieldShape(f, v)
    ensures |s| > 0
    decreases f, 0
  {
    EncodeTag(f.tag, WireType(f.kind)) + EncodeValue(f.kind, v)
  }

  function Encode(slots: seq<Slot>, m: seq<Content>): Bytes
    requires MessageShape(slots, m)
    decreases slots, 1
  {
    if slots == [] then [] else EncodeSlot(slots[0], m[0]) + Encode(slots[1..], m[1..])
  }

  function EncodeSlot(s: Slot, c: Content): Bytes
    requires SlotShape(s, c)
    decreases s, 2
  {
    match s
    case Single(f, Required) => EncodeField(f, c.v)
    case Single(f, Singular) => if ZeroField(f, c.v) then [] else EncodeField(f, c.v)
    case Single(f, Optional) => if c.has then EncodeField(f, c.v) else []
    case Single(f, Repeated(_)) => if c.items == [] then [] else EncodeArray(f, c.items)
    case Union(members) => EncodeUnion(members, c)
  }

  /** Arrays of numbers are always packed. */
  function EncodeArray(f: Field, items: seq<Value>): Bytes
    requires forall j :: 0 <= j < |items| ==> FieldShape(f, items[j])
    decreases f, 2
  {
    if Packable(f.kind) then EncodeTag(f.tag, WT_STRING) + PutLengthPrefixed(EncodeItems(f, items))
    else EncodeEach(f, items)
  }

  function EncodeItems(f: Field, items: seq<Value>): Bytes
    requires forall j :: 0 <= j < |items| ==> FieldShape(f, items[j])
    decreases f, 1, |items|
  {
    if items == [] then []
    else
      assert FieldShape(f, items[0]);
      EncodeValue(f.kind, items[0]) + EncodeItems(f, items[1..])
  }

  function EncodeEach(f: Field, items: seq<Value>): Bytes
    requires forall j :: 0 <= j < |items| ==> FieldShape(f, items[j])
    decreases f, 1, |items|
  {
    if items == [] then [] else EncodeField(f, items[0]) + EncodeEach(f, items[1..])
  }

  function EncodeUnion(members: seq<Field>, c: Content): Bytes
    requires SlotShape(Union(members), c)
    decreases members, 1
  {
    if members == [] then []
    else
      var tail := EncodeUnion(members[1..], c);
      if members[0].tag == c.which then EncodeField(members[0], c.v) + tail else tail
  }

  // ----- pb_message_set_to_defaults -----

  function InitValue(f: Field): Value
    decreases f, 0
  {
    if f.kind.MessageKind? then Msg(Defaults(f.kind.fields)) else f.init
  }

  function Defaults(slots: seq<Slot>): seq<Content>
    decreases slots, 0
  {
    seq(|slots|, i requires 0 <= i < |slots| => InitSlot(slots[i]))
  }

  function InitSlot(s: Slot): Content
    decreases s, 0
  {
    match s
    case Single(f, Required) => Plain(InitValue(f))
    case Single(f, Singular) => Plain(InitValue(f))
    case Single(f, Optional) => Opt(false, InitValue(f))
    case Single(f, Repeated(_)) => Rep([])
    case Union(_) => OneOf(0, Int(0))
  }

  // ----- the part of a struct that a message is about -----

  /** Absent members hold their defaults. */
  function CanonValue(k: Kind, v: Value): Value
    requires ValueShape(k, v)
    decreases k, 0
  {
    if k.MessageKind? then Msg(Canonical(k.fields, v.contents)) else v
  }

  function Canonical(slots: seq<Slot>, m: seq<Content>): seq<Content>
    requires MessageShape(slots, m)
    decreases slots, 0
  {
    seq(|slots|, i requires 0 <= i < |slots| => CanonSlot(slots[i], m[i]))
  }

  function CanonSlot(s: Slot, c: Content): Content
    requires SlotShape(s, c)
    decreases s, 0
  {
    match s
    case Single(f, Required) => Plain(CanonField(f, c.v))
    case Single(f, Singular) => Plain(CanonField(f, c.v))
    case Single(f, Optional) => if c.has then Opt(true, CanonField(f, c.v)) else Opt(false, InitValue(f))
    case Single(f, Repeated(_)) => Rep(CanonItems(f, c.items))
    case Union(members) => CanonUnion(members, c)
  }

  function CanonItems(f: Field, items: seq<Value>): seq<Value>
    requires forall j :: 0 <= j < |items| ==> FieldShape(f, items[j])
    decreases f, 1
  {
    seq(|items|, j requires 0 <= j < |items| => CanonField(f, items[j]))
  }

  function CanonUnion(members: seq<Field>, c: Content): Content
    requires SlotShape(Union(members), c)
    decreases members, 1
  {
    if members == [] then OneOf(0, Int(0))
    else if members[0].tag == c.which then OneOf(c.which, CanonField(members[0], c.v))
    else CanonUnion(members[1..], c)
  }

  function CanonField(f: Field, v: Value): Value
    requires FieldShape(f, v)
    decreases f, 0
  {
    CanonValue(f.kind, v)
  }

  // ----- well-formed descriptors -----

  const MAX_TAG: nat := 0x2000_0000

  predicate HasTag(s: Slot, tag: nat) {
    match s
    case Single(f, _) => f.tag == tag
    case Union(members) => exists j :: 0 <= j < |members| && members[j].tag == tag
  }

  /** No two fields share a tag. */
  ghost predicate TagsDiffer(slots: seq<Slot>) {
    forall i, j, tag | 0 <= i < |slots| && 0 <= j < |slots| && HasTag(slots[i], tag) && HasTag(slots[j], tag) :: i == j
  }

  ghost predicate MembersDiffer(members: seq<Field>) {
    forall i, j :: TagsDifferAt(members, i, j)
  }

  ghost predicate TagsDifferAt(members: seq<Field>, i: int, j: int) {
    0 <= i < j < |members| ==> members[i].tag != members[j].tag
  }

  ghost predicate DescriptorOk(slots: seq<Slot>)
    decreases slots, 0
  {
    TagsDiffer(slots) && forall i :: 0 <= i < |slots| ==> SlotOk(slots[i])
  }

  /**
   proto3 has no explicit defaults, so members without a has_ flag start out zero. Fixed-length bytes are sent always
   unless their length is 0, and need no such start.
   */
  ghost predicate SlotOk(s: Slot)
    decreases s, 0
  {
    match s
    case Single(f, rule) =>
      FieldOk(f)
      && (rule == Singular && !f.kind.MessageKind? && !f.kind.FixedBytesKind? ==> ZeroValue(f.kind, f.init))
    case Union(members) => MembersDiffer(members) && forall j :: 0 <= j < |members| ==> FieldOk(members[j])
  }

  ghost predicate FieldOk(f: Field)
    decreases f, 0
  {
    0 < f.tag < MAX_TAG && if f.kind.MessageKind? then DescriptorOk(f.kind.fields) else ValueShape(f.kind, f.init)
  }
}
