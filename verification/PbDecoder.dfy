/** The decoder as loops over a stream: pb_decode.c and the field search of pb_common.c. */
module PbDecoder {
  import opened Options
  import opened ByteStrings
  import opened Coding
  import opened PbMessages
  import opened PbDecode
  import PbFieldIter

  /** pb_istream_t over a buffer: `left` is what state and bytes_left still cover. */
  class IStream {
    var left: Bytes

    constructor (s: Bytes)
      ensures left == s
    {
      left := s;
    }

    /** pb_readbyte. */
    method ReadByte() returns (b: Option<Byte>)
      modifies this
      ensures old(left) == [] ==> b == None && left == []
      ensures old(left) != [] ==> b == Some(old(left)[0]) && left == old(left)[1..]
    {
      if left == [] {
        return None;
      }
      b := Some(left[0]);
      left := left[1..];
    }

    /** pb_read. */
    method Read(n: nat) returns (b: Option<Bytes>)
      modifies this
      ensures b == if n <= |old(left)| then Some(old(left)[..n]) else None
      ensures left == if n <= |old(left)| then old(left)[n..] else old(left)
    {
      if |left| < n {
        return None;
      }
      b := Some(left[..n]);
      left := left[n..];
    }
  }

  /** A read that gave `r` and left `left`, where the specification says `p`. */
  ghost predicate Got<T>(p: Parsed<T>, r: Option<T>, left: Bytes) {
    match p
    case Failed => r == None
    case Parsed(v, rest) => r == Some(v) && left == rest
  }

  ghost predicate Skipped(p: Option<Bytes>, ok: bool, left: Bytes) {
    ok == p.Some? && (ok ==> left == p.value)
  }

  /** pb_decode_varint32_eof. */
  method DecodeVarint32From(stream: IStream) returns (r: Option<nat>)
    modifies stream
    ensures Got(PbVarint32(old(stream.left)), r, stream.left)
  {
    hide Place, Overflows, Shifted;
    var byte := stream.ReadByte();
    if byte == None {
      return None;
    }
    if byte.value < 128 {
      return Some(byte.value);
    }
    var bitpos: nat := 7;
    var result: nat := byte.value % 128;
    while true
      invariant result < TWO_32 && MoreVarint32(stream.left, bitpos, result) == PbVarint32(old(stream.left))
      decreases |stream.left|
    {
      byte := stream.ReadByte();
      if byte == None {
        return None;
      }
      if bitpos >= 32 {
        if Overflows(byte.value, bitpos, result) {
          return None;
        }
      } else {
        result := (result + Shifted(byte.value % 128, Place(bitpos))) % TWO_32;
      }
      bitpos := bitpos + 7;
      if byte.value < 128 {
        break;
      }
    }
    if bitpos == 35 && byte.value / 16 % 8 != 0 {
      return None;
    }
    r := Some(result);
  }

  /** pb_decode_varint: ten groups of seven bits, the bits beyond the width lost. */
  method DecodeVarint64From(stream: IStream) returns (r: Option<nat>)
    modifies stream
    ensures Got(GetVarint64(old(stream.left)), r, stream.left)
    ensures r.Some? ==> r.value < TWO_64
  {
    hide Varint;
    var p := DecodeVarint(stream.left, 10, TWO_64);
    if p.Failed? {
      return None;
    }
    stream.left := p.rest;
    r := Some(p.value);
  }

  /** pb_make_string_substream. */
  method MakeSubstream(stream: IStream) returns (r: Option<IStream>)
    modifies stream
    ensures r.Some? ==> fresh(r.value) && r.value != stream
    ensures Got(Substream(old(stream.left)), if r.Some? then Some(r.value.left) else None, stream.left)
  {
    hide PbVarint32;
    var size := DecodeVarint32From(stream);
    if size == None {
      return None;
    }
    if |stream.left| < size.value {
      return None;
    }
    var sub := new IStream(stream.left[..size.value]);
    stream.left := stream.left[size.value..];
    r := Some(sub);
  }

  /** pb_skip_field. */
  method SkipFieldFrom(stream: IStream, wireType: nat) returns (ok: bool)
    modifies stream
    ensures Skipped(SkipField(wireType, old(stream.left)), ok, stream.left)
  {
    hide Substream, SkipVarint;
    if wireType == WT_VARINT {
      ok := SkipVarintFrom(stream);
    } else if wireType == WT_64BIT {
      var b := stream.Read(8);
      ok := b.Some?;
    } else if wireType == WT_STRING {
      var sub := MakeSubstream(stream);
      ok := sub.Some?;
    } else if wireType == WT_32BIT {
      var b := stream.Read(4);
      ok := b.Some?;
    } else {
      ok := false;
    }
  }

  method SkipVarintFrom(stream: IStream) returns (ok: bool)
    modifies stream
    ensures Skipped(SkipVarint(old(stream.left)), ok, stream.left)
  {
    var byte := stream.ReadByte();
    while byte.Some? && byte.value >= 128
      invariant byte == None ==> SkipVarint(old(stream.left)) == None
      invariant byte.Some? ==>
        SkipVarint(old(stream.left)) == if byte.value < 128 then Some(stream.left) else SkipVarint(stream.left)
      decreases |stream.left|, byte.Some?
    {
      byte := stream.ReadByte();
    }
    ok := byte.Some?;
  }

  // ----- values -----

  /** pb_dec_bytes, pb_dec_string and pb_dec_fixed_length_bytes: a length, a limit, and the bytes. */
  method DecodeBytesFrom(stream: IStream, k: Kind) returns (r: Option<Value>)
    requires k.BytesKind? || k.StringKind? || k.FixedBytesKind?
    requires KindOk(k) && StartShape(k, [])
    modifies stream
    ensures Got(DecodeValue(k, [], old(stream.left)), r, stream.left)
  {
    hide PbVarint32, CString;
    var size := DecodeVarint32From(stream);
    if size == None {
      return None;
    }
    if k.FixedBytesKind? && size.value == 0 {
      return Some(Blob(seq(k.size, _ => 0)));
    }
    if k.BytesKind? && size.value > k.capacity {
      return None;
    }
    if k.StringKind? && size.value + 1 > k.size {
      return None;
    }
    if k.FixedBytesKind? && size.value != k.size {
      return None;
    }
    var b := stream.Read(size.value);
    if b == None {
      return None;
    }
    r := Some(Blob(if k.StringKind? then CString(b.value) else b.value));
  }

  /** pb_dec_bool, pb_dec_varint, pb_dec_uvarint, pb_dec_svarint, pb_dec_fixed32 and pb_dec_fixed64. */
  method DecodeNumberFrom(stream: IStream, k: Kind) returns (r: Option<Value>)
    requires Packable(k)
    modifies stream
    ensures KindOk(k) && StartShape(k, [])
    ensures Got(DecodeValue(k, [], old(stream.left)), r, stream.left)
  {
    hide PbVarint32, GetVarint64, Received, FromLittleEndian;
    if k.BoolKind? {
      var n := DecodeVarint32From(stream);
      r := if n == None then None else Some(Int(if n.value != 0 then 1 else 0));
    } else if k.Fixed32Kind? {
      var b := stream.Read(4);
      r := if b == None then None else Some(Int(FromLittleEndian(b.value)));
    } else if k.Fixed64Kind? {
      var b := stream.Read(8);
      r := if b == None then None else Some(Int(FromLittleEndian(b.value)));
    } else {
      var n := DecodeVarint64From(stream);
      if n == None {
        return None;
      }
      var i := Received(k, n.value);
      r := if i == None then None else Some(Int(i.value));
    }
  }

  /** The decoder of a type; a submessage takes a substream and overwrites `start`. */
  method DecodeValueFrom(stream: IStream, k: Kind, start: seq<Content>) returns (r: Option<Value>)
    requires KindOk(k) && StartShape(k, start)
    modifies stream
    ensures Got(DecodeValue(k, start, old(stream.left)), r, stream.left)
    decreases |stream.left|, 0
  {
    hide Decode, Substream, PbVarint32, CString;
    if k.MessageKind? {
      var sub := MakeSubstream(stream);
      if sub == None {
        return None;
      }
      var m := DecodeNoInit(sub.value, k.fields, start);
      r := if m == None then None else Some(Msg(m.value));
    } else if Packable(k) {
      r := DecodeNumberFrom(stream, k);
    } else {
      r := DecodeBytesFrom(stream, k);
    }
  }

  // ----- fields -----

  /** decode_static_field. */
  method DecodeSlotFrom(stream: IStream, slot: Slot, c: Content, tag: nat, wireType: nat) returns (r: Option<Content>)
    requires SlotOk(slot) && SlotShape(slot, c) && HasTag(slot, tag)
    modifies stream
    ensures Got(DecodeSlot(slot, c, tag, wireType, old(stream.left)), r, stream.left)
    decreases |stream.left|, 2
  {
    hide DecodeValue, DecodeRepeated;
    match slot
    case Single(f, rule) =>
      if rule.Repeated? {
        r := DecodeRepeatedFrom(stream, f, rule.max, c, wireType);
      } else {
        StartOf(f, c.v);
        var v := DecodeValueFrom(stream, f.kind, Contents(c.v));
        r := if v == None then None else Some(if rule == Optional then Opt(true, v.value) else Plain(v.value));
      }
    case Union(members) =>
      var f := members[Member(members, tag)];
      assert FieldOk(f);
      var start := if c.which == tag then c.v else InitValue(f);
      InitShape(f);
      StartOf(f, start);
      var v := DecodeValueFrom(stream, f.kind, Contents(start));
      r := if v == None then None else Some(OneOf(tag, v.value));
  }

  method DecodeRepeatedFrom(stream: IStream, f: Field, max: nat, c: Content, wireType: nat) returns (r: Option<Content>)
    requires FieldOk(f) && SlotShape(Single(f, Repeated(max)), c)
    modifies stream
    ensures Got(DecodeRepeated(f, max, c, wireType, old(stream.left)), r, stream.left)
    decreases |stream.left|, 1
  {
    hide DecodeValue, DecodePacked, Substream, Decode;
    if wireType == WT_STRING && Packable(f.kind) {
      var sub := MakeSubstream(stream);
      if sub == None {
        return None;
      }
      var items := DecodePackedFrom(sub.value, f, max, c.items);
      r := if items == None then None else Some(Rep(items.value));
    } else if |c.items| >= max {
      r := None;
    } else {
      InitShape(f);
      StartOf(f, InitValue(f));
      var v := DecodeValueFrom(stream, f.kind, Contents(InitValue(f)));
      r := if v == None then None else Some(Rep(c.items + [v.value]));
    }
  }

  /** The loop over a packed array, which must end with its substream. */
  method DecodePackedFrom(sub: IStream, f: Field, max: nat, start: seq<Value>) returns (r: Option<seq<Value>>)
    requires FieldOk(f) && Packable(f.kind) && forall j :: 0 <= j < |start| ==> FieldShape(f, start[j])
    modifies sub
    ensures r == DecodePacked(f, max, start, old(sub.left))
  {
    hide DecodeValue;
    var items := start;
    while |sub.left| > 0 && |items| < max
      invariant forall j :: 0 <= j < |items| ==> FieldShape(f, items[j])
      invariant DecodePacked(f, max, items, sub.left) == DecodePacked(f, max, start, old(sub.left))
      decreases |sub.left|
    {
      var v := DecodeNumberFrom(sub, f.kind);
      if v == None {
        return None;
      }
      items := items + [v.value];
    }
    r := if |sub.left| != 0 then None else Some(items);
  }

  // ----- messages -----

  /** pb_field_iter_find: around the fields from the last one found, back to where it started. */
  method FindField(slots: seq<Slot>, start: nat, tag: nat) returns (found: bool, pos: nat)
    requires start < |slots| && TagsDiffer(slots)
    ensures found == (Find(slots, tag) < |slots|)
    ensures pos == if found then Find(slots, tag) else start
  {
    pos := start;
    ghost var steps: nat := 0;
    while true
      invariant pos < |slots| && steps < |slots| && pos == PbFieldIter.Around(start + steps, |slots|)
      invariant forall j :: 0 <= j < |slots| && (start <= j < start + steps || j + |slots| < start + steps)
                  ==> !HasTag(slots[j], tag)
      decreases |slots| - steps
    {
      if HasTag(slots[pos], tag) {
        return true, pos;
      }
      pos := PbFieldIter.Around(pos + 1, |slots|);
      steps := steps + 1;
      if pos == start {
        break;
      }
    }
    found := false;
  }

  /** A required field marks the bit with its number among the required fields. */
  ghost predicate BitsMatch(slots: seq<Slot>, bits: seq<bool>, seen: set<nat>) {
    |bits| == MAX_REQUIRED && forall i :: 0 <= i < |slots| ==> BitMatches(slots, bits, seen, i)
  }

  ghost predicate BitMatches(slots: seq<Slot>, bits: seq<bool>, seen: set<nat>, i: nat)
    requires i < |slots| && |bits| == MAX_REQUIRED
  {
    IsRequired(slots[i]) && RequiredIndex(slots, i) < MAX_REQUIRED ==> (bits[RequiredIndex(slots, i)] <==> i in seen)
  }

  lemma {:induction false} IndexGrows(slots: seq<Slot>, i: nat, j: nat)
    requires i < j <= |slots| && IsRequired(slots[i])
    ensures RequiredIndex(slots, i) < RequiredIndex(slots, j)
  {
    if j > i + 1 {
      IndexGrows(slots, i, j - 1);
    }
  }

  lemma MarkRequired(slots: seq<Slot>, bits: seq<bool>, seen: set<nat>, i: nat)
    requires |bits| == MAX_REQUIRED && BitsMatch(slots, bits, seen) && i < |slots|
    ensures BitsMatch(slots, Marked(slots, bits, i), seen + {i})
  {
    var after := Marked(slots, bits, i);
    forall j | 0 <= j < |slots| ensures BitMatches(slots, after, seen + {i}, j) {
      assert BitMatches(slots, bits, seen, j);
      if IsRequired(slots[i]) && IsRequired(slots[j]) && i != j {
        IndexGrows(slots, if i < j then i else j, if i < j then j else i);
      }
    }
  }

  function Marked(slots: seq<Slot>, bits: seq<bool>, i: nat): (r: seq<bool>)
    requires i < |slots| && |bits| == MAX_REQUIRED
    ensures |r| == MAX_REQUIRED
  {
    var n := RequiredIndex(slots, i);
    if IsRequired(slots[i]) && n < MAX_REQUIRED then bits[n := true] else bits
  }

  /** Every number below the count belongs to a required field. */
  lemma {:induction false} NthRequired(slots: seq<Slot>, end: nat, n: nat) returns (i: nat)
    requires end <= |slots| && n < RequiredIndex(slots, end)
    ensures i < end && IsRequired(slots[i]) && RequiredIndex(slots, i) == n
  {
    if RequiredIndex(slots, end - 1) == n {
      i := end - 1;
    } else {
      i := NthRequired(slots, end - 1, n);
    }
  }

  /** The check at the end: the bits of all tracked required fields are set. */
  method AllRequiredSeen(slots: seq<Slot>, bits: seq<bool>, ghost seen: set<nat>) returns (ok: bool)
    requires BitsMatch(slots, bits, seen)
    ensures ok == RequiredSeen(slots, seen)
  {
    var count := RequiredIndex(slots, |slots|);
    if count > MAX_REQUIRED {
      count := MAX_REQUIRED;
    }
    for n := 0 to count
      invariant forall k :: 0 <= k < n ==> bits[k]
    {
      if !bits[n] {
        ghost var i := NthRequired(slots, |slots|, n);
        assert BitMatches(slots, bits, seen, i);
        return false;
      }
    }
    forall i | 0 <= i < |slots| && IsRequired(slots[i]) && RequiredIndex(slots, i) < MAX_REQUIRED ensures i in seen {
      IndexGrows(slots, i, |slots|);
      assert BitMatches(slots, bits, seen, i);
    }
    ok := true;
  }

  /** pb_decode_noinit. */
  method DecodeNoInit(stream: IStream, slots: seq<Slot>, start: seq<Content>) returns (r: Option<seq<Content>>)
    requires DescriptorOk(slots) && MessageShape(slots, start)
    modifies stream
    ensures r == Decode(slots, start, {}, old(stream.left))
    decreases |stream.left|, 3
  {
    hide DecodeSlot, PbVarint32, SkipField, SlotShape, SlotOk, TagsDiffer, HasTag, BitsMatch, RequiredSeen, Find;
    var m := start;
    var bits := seq(MAX_REQUIRED, _ => false);
    var pos: nat := 0;
    ghost var seen: set<nat> := {};
    NothingSeen(slots, bits);
    while |stream.left| > 0
      invariant MessageShape(slots, m) && |bits| == MAX_REQUIRED && BitsMatch(slots, bits, seen)
      invariant pos < |slots| || slots == []
      invariant Decode(slots, m, seen, stream.left) == Decode(slots, start, {}, old(stream.left))
      invariant |stream.left| <= |old(stream.left)|
      decreases |stream.left|
    {
      ghost var before := stream.left;
      var n := DecodeVarint32From(stream);
      if n == None {
        return None;
      }
      if n.value == 0 {
        break;
      }
      var tag, wireType := n.value / 8, n.value % 8;
      var found := false;
      if slots != [] {
        found, pos := FindField(slots, pos, tag);
      }
      if !found {
        assert Find(slots, tag) == |slots|;
        var ok := SkipFieldFrom(stream, wireType);
        if !ok {
          return None;
        }
        continue;
      }
      var c := DecodeSlotFrom(stream, slots[pos], m[pos], tag, wireType);
      if c == None {
        return None;
      }
      MarkRequired(slots, bits, seen, pos);
      bits := Marked(slots, bits, pos);
      m := m[pos := c.value];
      seen := seen + {pos};
    }
    var ok := AllRequiredSeen(slots, bits, seen);
    r := if ok then Some(m) else None;
  }

  lemma NothingSeen(slots: seq<Slot>, bits: seq<bool>)
    requires bits == seq(MAX_REQUIRED, _ => false)
    ensures BitsMatch(slots, bits, {})
  {
  }
}
