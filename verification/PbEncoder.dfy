/** The two-pass encoder: pb_encode.c over streams that write or only count. */
module PbEncoder {
  import opened Options
  import opened ByteStrings
  import opened Coding
  import opened PbMessages

  /** pb_ostream_t; `sizing` is a stream without a callback, `out` the memory its state points into. */
  class OStream {
    const sizing: bool
    const maxSize: nat
    var written: nat
    var out: Bytes

    ghost predicate Valid()
      reads this
    {
      sizing || written <= maxSize
    }

    constructor (sizing: bool, maxSize: nat, out: Bytes)
      ensures Valid() && this.sizing == sizing && this.maxSize == maxSize && written == 0 && this.out == out
    {
      this.sizing, this.maxSize, this.written, this.out := sizing, maxSize, 0, out;
    }

    /** Space for `n` more bytes. */
    predicate Room(n: nat)
      reads this
    {
      sizing || written + n <= maxSize
    }

    /** pb_write. */
    method Write(buf: Bytes) returns (ok: bool)
      requires Valid()
      modifies this
      ensures Valid() && ok == old(Room(|buf|))
      ensures ok ==> written == old(written) + |buf| && out == old(out) + Kept(sizing, buf)
    {
      if |buf| > 0 && !sizing {
        if written + |buf| > maxSize {
          return false;
        }
        out := out + buf;
      }
      written := written + |buf|;
      ok := true;
    }

    /** pb_write without data, on a stream that only counts. */
    method Count(ghost buf: Bytes, size: nat)
      requires Valid() && sizing && size == |buf|
      modifies this
      ensures Valid() && written == old(written) + |buf| && out == old(out) + Kept(sizing, buf)
    {
      written := written + size;
    }
  }

  /** What of the bytes sent ends up in memory. */
  function Kept(sizing: bool, s: Bytes): Bytes {
    if sizing then [] else s
  }

  // ----- varints -----

  /** The digits of a positive number, all marked as followed by another. */
  function Continued(v: nat): (s: Bytes) {
    if v == 0 then [] else [v % 128 + 128] + Continued(v / 128)
  }

  lemma {:induction false} UnmarkLast(v: nat)
    requires v > 0
    ensures var s := Continued(v);
      |s| > 0 && s[|s| - 1] >= 128 && EncodeVarint(v) == s[..|s| - 1] + [s[|s| - 1] - 128]
  {
    var s := Continued(v);
    if v < 128 {
      assert Continued(v / 128) == [];
    } else {
      var t := Continued(v / 128);
      UnmarkLast(v / 128);
      assert s == [v % 128 + 128] + t;
      assert s[..|s| - 1] == [v % 128 + 128] + t[..|t| - 1];
    }
  }

  lemma Varints(v: nat)
    ensures v < 128 ==> EncodeVarint(v) == [v]
    ensures Continued(0) == []
  {
  }

  lemma MoreContinued(v: nat)
    ensures v > 0 ==> Continued(v) == [v % 128 + 128] + Continued(v / 128)
  {
  }

  /** pb_encode_varint. */
  method EncodeVarintTo(stream: OStream, value: nat) returns (ok: bool)
    requires stream.Valid()
    modifies stream
    ensures stream.Valid() && ok == old(stream.Room(|EncodeVarint(value)|))
    ensures ok ==> stream.written == old(stream.written) + |EncodeVarint(value)|
    ensures ok ==> stream.out == old(stream.out) + Kept(stream.sizing, EncodeVarint(value))
  {
    hide Continued, EncodeVarint;
    Varints(value);
    if value <= 0x7F {
      ok := stream.Write([value]);
      return;
    }
    var buffer: Bytes, left := [], value;
    while left != 0
      invariant unchanged(stream) && buffer + Continued(left) == Continued(value)
    {
      MoreContinued(left);
      buffer := buffer + [left % 128 + 128];
      left := left / 128;
    }
    assert buffer + Continued(0) == buffer;
    UnmarkLast(value);
    buffer := buffer[..|buffer| - 1] + [buffer[|buffer| - 1] - 128];
    ok := stream.Write(buffer);
  }

  method EncodeTagTo(stream: OStream, tag: nat, wireType: nat) returns (ok: bool)
    requires stream.Valid()
    modifies stream
    ensures stream.Valid() && ok == old(stream.Room(|EncodeTag(tag, wireType)|))
    ensures ok ==> stream.written == old(stream.written) + |EncodeTag(tag, wireType)|
    ensures ok ==> stream.out == old(stream.out) + Kept(stream.sizing, EncodeTag(tag, wireType))
  {
    ok := EncodeVarintTo(stream, 8 * tag + wireType);
  }

  /** pb_encode_string. */
  method EncodeStringTo(stream: OStream, b: Bytes) returns (ok: bool)
    requires stream.Valid()
    modifies stream
    ensures stream.Valid() && ok == old(stream.Room(|PutLengthPrefixed(b)|))
    ensures ok ==> stream.written == old(stream.written) + |PutLengthPrefixed(b)|
    ensures ok ==> stream.out == old(stream.out) + Kept(stream.sizing, PutLengthPrefixed(b))
  {
    ok := EncodeVarintTo(stream, |b|);
    if ok {
      ok := stream.Write(b);
    }
  }

  // ----- messages -----

  /** pb_encode. */
  method EncodeTo(stream: OStream, slots: seq<Slot>, m: seq<Content>) returns (ok: bool)
    requires stream.Valid() && MessageShape(slots, m)
    modifies stream
    ensures stream.Valid() && ok == (MessageWithin(false, slots, m) && old(stream.Room(|Encode(slots, m)|)))
    ensures ok ==> stream.written == old(stream.written) + |Encode(slots, m)|
    ensures ok ==> stream.out == old(stream.out) + Kept(stream.sizing, Encode(slots, m))
    decreases slots, 1
  {
    hide SlotShape, EncodeSlot, SlotWithin;
    ghost var sent: Bytes := [];
    for i := 0 to |slots|
      invariant stream.Valid() && MessageShape(slots[i..], m[i..])
      invariant sent + Encode(slots[i..], m[i..]) == Encode(slots, m)
      invariant forall j :: 0 <= j < i ==> SlotWithin(false, slots[j], m[j])
      invariant stream.written == old(stream.written) + |sent|
      invariant stream.out == old(stream.out) + Kept(stream.sizing, sent)
    {
      assert slots[i..][1..] == slots[i + 1..] && m[i..][1..] == m[i + 1..];
      var piece := EncodeSlotTo(stream, slots[i], m[i]);
      assert Encode(slots[i..], m[i..]) == EncodeSlot(slots[i], m[i]) + Encode(slots[i + 1..], m[i + 1..]);
      if !piece {
        return false;
      }
      sent := sent + EncodeSlot(slots[i], m[i]);
    }
    ok := true;
  }

  /** encode_basic_field for every field that shares the storage of a slot. */
  method EncodeSlotTo(stream: OStream, s: Slot, c: Content) returns (ok: bool)
    requires stream.Valid() && SlotShape(s, c)
    modifies stream
    ensures stream.Valid() && ok == (SlotWithin(false, s, c) && old(stream.Room(|EncodeSlot(s, c)|)))
    ensures ok ==> stream.written == old(stream.written) + |EncodeSlot(s, c)|
    ensures ok ==> stream.out == old(stream.out) + Kept(stream.sizing, EncodeSlot(s, c))
    decreases s, 3
  {
    match s
    case Union(members) =>
      ok := EncodeUnionTo(stream, members, c);
    case Single(f, rule) =>
      if rule.Repeated? {
        ok := EncodeArrayTo(stream, f, rule.max, c.items);
      } else {
        var has := if rule == Optional then c.has else if rule == Singular then !ZeroField(f, c.v) else true;
        if has {
          ok := EncodeFieldTo(stream, f, c.v);
        } else {
          ok := true;
        }
      }
  }

  method EncodeUnionTo(stream: OStream, members: seq<Field>, c: Content) returns (ok: bool)
    requires stream.Valid() && SlotShape(Union(members), c)
    modifies stream
    ensures stream.Valid()
    ensures ok == (SlotWithin(false, Union(members), c) && old(stream.Room(|EncodeUnion(members, c)|)))
    ensures ok ==> stream.written == old(stream.written) + |EncodeUnion(members, c)|
    ensures ok ==> stream.out == old(stream.out) + Kept(stream.sizing, EncodeUnion(members, c))
    decreases members, 1
  {
    hide EncodeField, FieldShape, FieldWithin;
    ghost var sent: Bytes := [];
    for i := 0 to |members|
      invariant stream.Valid() && SlotShape(Union(members[i..]), c)
      invariant sent + EncodeUnion(members[i..], c) == EncodeUnion(members, c)
      invariant forall j :: 0 <= j < i && members[j].tag == c.which ==> FieldWithin(false, members[j], c.v)
      invariant stream.written == old(stream.written) + |sent|
      invariant stream.out == old(stream.out) + Kept(stream.sizing, sent)
    {
      assert members[i..][1..] == members[i + 1..] && members[i..][0] == members[i];
      if members[i].tag == c.which {
        var piece := EncodeFieldTo(stream, members[i], c.v);
        assert EncodeUnion(members[i..], c) == EncodeField(members[i], c.v) + EncodeUnion(members[i + 1..], c);
        if !piece {
          return false;
        }
        sent := sent + EncodeField(members[i], c.v);
      }
    }
    ok := true;
  }

  /** pb_encode_tag_for_field and the encoder of the type. */
  method EncodeFieldTo(stream: OStream, f: Field, v: Value) returns (ok: bool)
    requires stream.Valid() && FieldShape(f, v)
    modifies stream
    ensures stream.Valid() && ok == (FieldWithin(false, f, v) && old(stream.Room(|EncodeField(f, v)|)))
    ensures ok ==> stream.written == old(stream.written) + |EncodeField(f, v)|
    ensures ok ==> stream.out == old(stream.out) + Kept(stream.sizing, EncodeField(f, v))
    decreases f, 0
  {
    hide EncodeTag, EncodeValue;
    ok := EncodeTagTo(stream, f.tag, WireType(f.kind));
    if ok {
      ok := EncodeValueTo(stream, f.kind, v);
    }
  }

  /** encode_array: numbers are packed behind their total size, other items get a tag each. */
  method EncodeArrayTo(stream: OStream, f: Field, max: nat, items: seq<Value>) returns (ok: bool)
    requires stream.Valid() && forall j :: 0 <= j < |items| ==> FieldShape(f, items[j])
    modifies stream
    ensures stream.Valid() && ok == (SlotWithin(false, Single(f, Repeated(max)), Rep(items))
                                     && old(stream.Room(|EncodeSlot(Single(f, Repeated(max)), Rep(items))|)))
    ensures ok ==> stream.written == old(stream.written) + |EncodeSlot(Single(f, Repeated(max)), Rep(items))|
    ensures ok ==> stream.out == old(stream.out) + Kept(stream.sizing, EncodeSlot(Single(f, Repeated(max)), Rep(items)))
    decreases f, 2
  {
    hide EncodeTag, EncodeItems, EncodeEach, FieldWithin;
    if |items| == 0 {
      return true;
    }
    if |items| > max {
      return false;
    }
    if Packable(f.kind) {
      NumbersAreWithin(f, items);
      ok := EncodeTagTo(stream, f.tag, WT_STRING);
      if ok {
        ok := EncodePackedTo(stream, f, items);
      }
    } else {
      ok := EncodeEachTo(stream, f, items);
    }
  }

  lemma NumbersAreWithin(f: Field, items: seq<Value>)
    requires Packable(f.kind) && forall j :: 0 <= j < |items| ==> FieldShape(f, items[j])
    ensures forall j :: 0 <= j < |items| ==> FieldWithin(false, f, items[j])
  {
    forall j | 0 <= j < |items| ensures FieldWithin(false, f, items[j]) {
      assert ValueShape(f.kind, items[j]);
    }
  }

  /** The size is known for fixed widths and found by a counting pass otherwise. */
  method EncodePackedTo(stream: OStream, f: Field, items: seq<Value>) returns (ok: bool)
    requires stream.Valid() && Packable(f.kind) && forall j :: 0 <= j < |items| ==> FieldShape(f, items[j])
    modifies stream
    ensures stream.Valid() && ok == old(stream.Room(|PutLengthPrefixed(EncodeItems(f, items))|))
    ensures ok ==> stream.written == old(stream.written) + |PutLengthPrefixed(EncodeItems(f, items))|
    ensures ok ==> stream.out == old(stream.out) + Kept(stream.sizing, PutLengthPrefixed(EncodeItems(f, items)))
    decreases f, 1, |items| + 1
  {
    hide EncodeItems;
    var size: nat := 4 * |items|;
    if f.kind == Fixed64Kind {
      size := 8 * |items|;
    } else if f.kind != Fixed32Kind {
      var sizestream := new OStream(true, 0, []);
      var counted := EncodeItemsTo(sizestream, f, items);
      assert counted;
      size := sizestream.written;
    }
    FixedSize(f, items);
    ok := EncodeVarintTo(stream, size);
    if !ok {
      return;
    }
    if stream.sizing {
      stream.Count(EncodeItems(f, items), size);
    } else {
      ok := EncodeItemsTo(stream, f, items);
    }
  }

  lemma {:induction false} FixedSize(f: Field, items: seq<Value>)
    requires forall j :: 0 <= j < |items| ==> FieldShape(f, items[j])
    ensures f.kind == Fixed32Kind ==> |EncodeItems(f, items)| == 4 * |items|
    ensures f.kind == Fixed64Kind ==> |EncodeItems(f, items)| == 8 * |items|
  {
    if items != [] {
      FixedSize(f, items[1..]);
      assert FieldShape(f, items[0]);
    }
  }

  method EncodeItemsTo(stream: OStream, f: Field, items: seq<Value>) returns (ok: bool)
    requires stream.Valid() && Packable(f.kind) && forall j :: 0 <= j < |items| ==> FieldShape(f, items[j])
    modifies stream
    ensures stream.Valid() && ok == old(stream.Room(|EncodeItems(f, items)|))
    ensures ok ==> stream.written == old(stream.written) + |EncodeItems(f, items)|
    ensures ok ==> stream.out == old(stream.out) + Kept(stream.sizing, EncodeItems(f, items))
    decreases f, 1, |items|
  {
    hide EncodeValue;
    ghost var sent: Bytes := [];
    for i := 0 to |items|
      invariant stream.Valid() && sent + EncodeItems(f, items[i..]) == EncodeItems(f, items)
      invariant stream.written == old(stream.written) + |sent|
      invariant stream.out == old(stream.out) + Kept(stream.sizing, sent)
    {
      assert items[i..][1..] == items[i + 1..] && items[i..][0] == items[i];
      assert FieldShape(f, items[i]);
      var piece := EncodeValueTo(stream, f.kind, items[i]);
      assert EncodeItems(f, items[i..]) == EncodeValue(f.kind, items[i]) + EncodeItems(f, items[i + 1..]);
      if !piece {
        return false;
      }
      sent := sent + EncodeValue(f.kind, items[i]);
    }
    ok := true;
  }

  method EncodeEachTo(stream: OStream, f: Field, items: seq<Value>) returns (ok: bool)
    requires stream.Valid() && forall j :: 0 <= j < |items| ==> FieldShape(f, items[j])
    modifies stream
    ensures stream.Valid()
    ensures ok == ((forall j :: 0 <= j < |items| ==> FieldWithin(false, f, items[j]))
                   && old(stream.Room(|EncodeEach(f, items)|)))
    ensures ok ==> stream.written == old(stream.written) + |EncodeEach(f, items)|
    ensures ok ==> stream.out == old(stream.out) + Kept(stream.sizing, EncodeEach(f, items))
    decreases f, 1
  {
    hide EncodeField, FieldShape, FieldWithin;
    ghost var sent: Bytes := [];
    for i := 0 to |items|
      invariant stream.Valid() && sent + EncodeEach(f, items[i..]) == EncodeEach(f, items)
      invariant forall j :: 0 <= j < i ==> FieldWithin(false, f, items[j])
      invariant stream.written == old(stream.written) + |sent|
      invariant stream.out == old(stream.out) + Kept(stream.sizing, sent)
    {
      assert items[i..][1..] == items[i + 1..] && items[i..][0] == items[i];
      var piece := EncodeFieldTo(stream, f, items[i]);
      assert EncodeEach(f, items[i..]) == EncodeField(f, items[i]) + EncodeEach(f, items[i + 1..]);
      if !piece {
        return false;
      }
      sent := sent + EncodeField(f, items[i]);
    }
    ok := true;
  }

  /** The pb_enc_ functions. */
  method EncodeValueTo(stream: OStream, k: Kind, v: Value) returns (ok: bool)
    requires stream.Valid() && ValueShape(k, v)
    modifies stream
    ensures stream.Valid() && ok == (Within(false, k, v) && old(stream.Room(|EncodeValue(k, v)|)))
    ensures ok ==> stream.written == old(stream.written) + |EncodeValue(k, v)|
    ensures ok ==> stream.out == old(stream.out) + Kept(stream.sizing, EncodeValue(k, v))
    decreases k, 0
  {
    match k
    case Fixed32Kind =>
      ok := stream.Write(EncodeFixed32(v.i));
    case Fixed64Kind =>
      ok := stream.Write(EncodeFixed64(v.i));
    case BytesKind(capacity) =>
      if |v.bytes| > capacity {
        return false;
      }
      ok := EncodeStringTo(stream, v.bytes);
    case StringKind(_) =>
      ok := EncodeStringTo(stream, v.bytes);
    case FixedBytesKind(_) =>
      ok := EncodeStringTo(stream, v.bytes);
    case MessageKind(fields) =>
      ok := EncodeSubmessageTo(stream, fields, v.contents);
    case _ =>
      ok := EncodeVarintTo(stream, Sent(k, v.i));
  }

  /** pb_encode_submessage: a counting pass for the size, then the message in a substream of exactly that size. */
  method EncodeSubmessageTo(stream: OStream, fields: seq<Slot>, m: seq<Content>) returns (ok: bool)
    requires stream.Valid() && MessageShape(fields, m)
    modifies stream
    ensures stream.Valid()
    ensures ok == (MessageWithin(false, fields, m) && old(stream.Room(|PutLengthPrefixed(Encode(fields, m))|)))
    ensures ok ==> stream.written == old(stream.written) + |PutLengthPrefixed(Encode(fields, m))|
    ensures ok ==> stream.out == old(stream.out) + Kept(stream.sizing, PutLengthPrefixed(Encode(fields, m)))
    decreases fields, 2
  {
    hide Encode, MessageWithin, MessageShape;
    var sizestream := new OStream(true, 0, []);
    ok := EncodeTo(sizestream, fields, m);
    if !ok {
      return;
    }
    var size := sizestream.written;
    ok := EncodeVarintTo(stream, size);
    if !ok {
      return;
    }
    if stream.sizing {
      stream.Count(Encode(fields, m), size);
      return;
    }
    if stream.written + size > stream.maxSize {
      return false;
    }
    var substream := new OStream(false, size, stream.out);
    var status := EncodeTo(substream, fields, m);
    stream.written := stream.written + substream.written;
    stream.out := substream.out;
    // The second pass always sends what the first counted, so the size check of the original cannot fail.
    assert status && substream.written == size;
    ok := status;
  }

  /** pb_get_encoded_size. */
  method EncodedSize(slots: seq<Slot>, m: seq<Content>) returns (size: Option<nat>)
    requires MessageShape(slots, m)
    ensures size == if MessageWithin(false, slots, m) then Some(|Encode(slots, m)|) else None
  {
    var stream := new OStream(true, 0, []);
    var ok := EncodeTo(stream, slots, m);
    size := if ok then Some(stream.written) else None;
  }
}
