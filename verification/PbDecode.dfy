/** Decoding into message structs: pb_decode.c, static allocation only. */
module PbDecode {
  import opened Options
  import opened ByteStrings
  import opened Coding
  import opened PbMessages

  // ----- varints of at most 32 bits -----

  /** Two to the power `bitpos`, a multiple of seven. */
  function Place(bitpos: nat): nat {
    if bitpos < 7 then 1 else 128 * Place(bitpos - 7)
  }

  /** A byte beyond the width may only continue a sign or add nothing. */
  predicate Overflows(byte: Byte, bitpos: nat, result: nat) {
    byte % 128 != 0 && (result < 0x8000_0000 || byte != (if bitpos < 63 then 0xFF else 0x01))
  }

  /** The bytes behind the first in pb_decode_varint32_eof. */
  function MoreVarint32(s: Bytes, bitpos: nat, result: nat): (r: Parsed<nat>)
    requires result < TWO_32
    ensures r.Parsed? ==> r.value < TWO_32 && |r.rest| < |s|
  {
    if s == [] then Failed
    else if bitpos >= 32 && Overflows(s[0], bitpos, result) then Failed
    else
      var next := if bitpos >= 32 then result else (result + Shifted(s[0] % 128, Place(bitpos))) % TWO_32;
      if s[0] >= 128 then MoreVarint32(s[1..], bitpos + 7, next)
      else if bitpos == 28 && s[0] / 16 != 0 then Failed
      else Parsed(next, s[1..])
  }

  /** pb_decode_varint32. */
  function PbVarint32(s: Bytes): (r: Parsed<nat>)
    ensures r.Parsed? ==> r.value < TWO_32 && |r.rest| < |s|
  {
    if s == [] then Failed
    else if s[0] < 128 then Parsed(s[0], s[1..])
    else MoreVarint32(s[1..], 7, s[0] - 128)
  }

  lemma {:induction false} MoreRoundTrip(v: nat, bitpos: nat, result: nat, rest: Bytes)
    requires bitpos <= 28 && result < Place(bitpos) && result + Shifted(v, Place(bitpos)) < TWO_32
    requires bitpos == 28 ==> v < 16
    requires bitpos < 28 ==> bitpos % 7 == 0
    ensures MoreRoundTripHolds(v, bitpos, result, rest)
    decreases 28 - bitpos
  {
    hide Place, Overflows, Shifted;
    var s := EncodeVarint(v) + rest;
    SplitDigits(v, Place(bitpos));
    if v < 128 {
      assert s[1..] == rest;
    } else {
      assert s[1..] == EncodeVarint(v / 128) + rest;
      NextPlace(bitpos);
      if bitpos + 7 == 28 {
        LastDigit(v);
      }
      MoreRoundTrip(v / 128, bitpos + 7, result + Shifted(v % 128, Place(bitpos)), rest);
    }
  }

  predicate MoreRoundTripHolds(v: nat, bitpos: nat, result: nat, rest: Bytes) {
    result < TWO_32 &&
    MoreVarint32(EncodeVarint(v) + rest, bitpos, result) == Parsed(result + Shifted(v, Place(bitpos)), rest)
  }

  lemma SplitDigits(v: nat, place: nat)
    ensures Shifted(v, place) == Shifted(v % 128, place) + Shifted(v / 128, 128 * place)
    ensures Shifted(v % 128, place) <= 127 * place
    ensures v < 128 ==> Shifted(v % 128, place) == Shifted(v, place)
  {
    Distribute(v % 128, v / 128, place, v);
    MulMono(v % 128, 127, place);
  }

  lemma Distribute(a: nat, b: nat, c: nat, v: nat)
    requires v == a + 128 * b
    ensures v * c == a * c + b * (128 * c)
  {
  }

  lemma LastDigit(v: nat)
    requires Shifted(v, Place(21)) < TWO_32
    ensures v / 128 < 16
  {
    Places();
    Times21(v, Place(21));
  }

  lemma Times21(v: nat, place: nat)
    requires place == 0x20_0000 && v * place < TWO_32
    ensures v < 2048
  {
  }

  lemma NextPlace(bitpos: nat)
    ensures Place(bitpos + 7) == 128 * Place(bitpos)
  {
  }

  lemma Places()
    ensures Place(0) == 1 && Place(7) == 0x80 && Place(14) == 0x4000 && Place(21) == 0x20_0000 &&
            Place(28) == 0x1000_0000
  {
    assert Place(7) == 128 * Place(0) && Place(14) == 128 * Place(7) && Place(21) == 128 * Place(14);
    assert Place(28) == 128 * Place(21);
  }

  lemma PbVarint32RoundTrip(v: nat, rest: Bytes)
    requires v < TWO_32
    ensures PbVarint32(EncodeVarint(v) + rest) == Parsed(v, rest)
  {
    var s := EncodeVarint(v) + rest;
    if v < 128 {
      assert s[1..] == rest;
    } else {
      assert s[1..] == EncodeVarint(v / 128) + rest;
      Places();
      MoreRoundTrip(v / 128, 7, v % 128, rest);
    }
  }

  // ----- tags, substreams, unknown fields -----

  datatype Tagged = BadTag | EndTag | Tag(tag: nat, wireType: nat, rest: Bytes)

  /** pb_decode_tag before the end of the stream; a zero ends the message. */
  function GetTag(s: Bytes): (r: Tagged)
    ensures r.Tag? ==> |r.rest| < |s|
  {
    match PbVarint32(s)
    case Failed => BadTag
    case Parsed(n, rest) => if n == 0 then EndTag else Tag(n / 8, n % 8, rest)
  }

  /** pb_make_string_substream: the substream and what follows it. */
  function Substream(s: Bytes): (r: Parsed<Bytes>)
    ensures r.Parsed? ==> |r.value| + |r.rest| < |s|
  {
    match PbVarint32(s)
    case Failed => Failed
    case Parsed(n, rest) => if n <= |rest| then Parsed(rest[..n], rest[n..]) else Failed
  }

  function SkipVarint(s: Bytes): (r: Option<Bytes>)
    ensures r.Some? ==> |r.value| < |s|
  {
    if s == [] then None else if s[0] < 128 then Some(s[1..]) else SkipVarint(s[1..])
  }

  function SkipBytes(s: Bytes, n: nat): (r: Option<Bytes>)
    ensures r.Some? ==> |r.value| <= |s|
  {
    if n <= |s| then Some(s[n..]) else None
  }

  /** pb_skip_field. */
  function SkipField(wireType: nat, s: Bytes): (r: Option<Bytes>)
    ensures r.Some? ==> |r.value| <= |s|
  {
    if wireType == WT_VARINT then SkipVarint(s)
    else if wireType == WT_64BIT then SkipBytes(s, 8)
    else if wireType == WT_STRING then
      match Substream(s)
      case Failed => None
      case Parsed(_, rest) => Some(rest)
    else if wireType == WT_32BIT then SkipBytes(s, 4)
    else None
  }

  // ----- numbers -----

  function Signed(w: Width, n: nat): int
    requires n < Range(w)
  {
    if 2 * n < Range(w) then n else n - Range(w)
  }

  function Unzigzag(n: nat): int {
    if n % 2 == 1 then -(n / 2) - 1 else n / 2
  }

  function Checked(fits: bool, i: int): Option<int> {
    if fits then Some(i) else None
  }

  /** The casts of pb_dec_varint, pb_dec_uvarint and pb_dec_svarint with their overflow checks. */
  function Received(k: Kind, n: nat): (r: Option<int>)
    requires n < TWO_64 && (k.IntKind? || k.UIntKind? || k.SIntKind?)
    ensures r.Some? ==> ValueShape(k, Int(r.value))
  {
    match k
    case IntKind(w) =>
      var i := if w == W64 then Signed(W64, n) else Signed(W32, n % TWO_32);
      Checked(SignedFits(w, i), i)
    case UIntKind(w) => Checked(n < Range(w), n)
    case SIntKind(w) => Checked(SignedFits(w, Unzigzag(n)), Unzigzag(n))
  }

  lemma NumberRoundTrip(k: Kind, i: int)
    requires k.IntKind? || k.UIntKind? || k.SIntKind?
    requires ValueShape(k, Int(i))
    ensures Sent(k, i) < TWO_64 && Received(k, Sent(k, i)) == Some(i)
  {
    match k
    case IntKind(w) =>
      SignedRoundTrip(w, i);
    case UIntKind(_) =>
    case SIntKind(w) =>
      UnzigzagRoundTrip(i);
  }

  lemma SignedRoundTrip(w: Width, i: int)
    requires SignedFits(w, i)
    ensures var n := if i < 0 then i + TWO_64 else i;
      0 <= n < TWO_64 && i == if w == W64 then Signed(W64, n) else Signed(W32, n % TWO_32)
  {
    if i < 0 && w != W64 {
      assert (i + TWO_64) % TWO_32 == i + TWO_32;
    }
  }

  lemma UnzigzagRoundTrip(i: int)
    ensures Unzigzag(if i < 0 then -2 * i - 1 else 2 * i) == i
  {
  }

  // ----- values -----

  /** What a char array holds after bytes were read into it. */
  function CString(s: Bytes): (t: Bytes)
    ensures |t| <= |s| && 0 !in t
    ensures 0 !in s ==> t == s
  {
    if s == [] || s[0] == 0 then [] else [s[0]] + CString(s[1..])
  }

  function Contents(v: Value): seq<Content> {
    if v.Msg? then v.contents else []
  }

  /** What a submessage is decoded into must have its type. */
  predicate StartShape(k: Kind, start: seq<Content>) {
    k.MessageKind? ==> MessageShape(k.fields, start)
  }

  /** The pb_dec_ functions. */
  function DecodeValue(k: Kind, start: seq<Content>, s: Bytes): (r: Parsed<Value>)
    requires KindOk(k) && StartShape(k, start)
    ensures r.Parsed? ==> |r.rest| < |s| && ValueShape(k, r.value)
    decreases |s|, 0
  {
    match k
    case BoolKind =>
      (match PbVarint32(s)
       case Failed => Failed
       case Parsed(n, rest) => Parsed(Int(if n != 0 then 1 else 0), rest))
    case Fixed32Kind => if |s| < 4 then Failed else DecodedFixed32(s)
    case Fixed64Kind => if |s| < 8 then Failed else DecodedFixed64(s)
    case BytesKind(capacity) =>
      (match PbVarint32(s)
       case Failed => Failed
       case Parsed(n, rest) => if n > capacity || n > |rest| then Failed else Parsed(Blob(rest[..n]), rest[n..]))
    case StringKind(size) =>
      (match PbVarint32(s)
       case Failed => Failed
       case Parsed(n, rest) =>
         if n + 1 > size || n > |rest| then Failed else Parsed(Blob(CString(rest[..n])), rest[n..]))
    case FixedBytesKind(size) =>
      (match PbVarint32(s)
       case Failed => Failed
       case Parsed(n, rest) =>
         if n == 0 then Parsed(Blob(seq(size, _ => 0)), rest)
         else if n != size || n > |rest| then Failed
         else Parsed(Blob(rest[..n]), rest[n..]))
    case MessageKind(fields) =>
      (match Substream(s)
       case Failed => Failed
       case Parsed(sub, rest) =>
         match Decode(fields, start, {}, sub)
         case None => Failed
         case Some(m) => Parsed(Msg(m), rest))
    case _ => DecodeNumber(k, s)
  }

  function DecodeNumber(k: Kind, s: Bytes): (r: Parsed<Value>)
    requires k.IntKind? || k.UIntKind? || k.SIntKind?
    ensures r.Parsed? ==> |r.rest| < |s| && ValueShape(k, r.value)
  {
    VarintConsumes(s, 10);
    match GetVarint64(s)
    case Failed => Failed
    case Parsed(n, rest) =>
      match Received(k, n)
      case None => Failed
      case Some(i) => Parsed(Int(i), rest)
  }

  function DecodedFixed32(s: Bytes): (r: Parsed<Value>)
    requires |s| >= 4
    ensures r.Parsed? && |r.rest| < |s| && ValueShape(Fixed32Kind, r.value)
  {
    FromLittleEndianRoundTrip(s[..4]);
    FixedPowers();
    Parsed(Int(DecodeFixed32(s)), s[4..])
  }

  function DecodedFixed64(s: Bytes): (r: Parsed<Value>)
    requires |s| >= 8
    ensures r.Parsed? && |r.rest| < |s| && ValueShape(Fixed64Kind, r.value)
  {
    FromLittleEndianRoundTrip(s[..8]);
    FixedPowers();
    Parsed(Int(DecodeFixed64(s)), s[8..])
  }

  lemma FixedPowers()
    ensures Power256(4) == TWO_32 && Power256(8) == TWO_64
  {
    assert Power256(4) == 256 * Power256(3) == 256 * (256 * Power256(2)) == 256 * (256 * (256 * Power256(1)));
    Power256Of8();
  }

  // ----- fields -----

  ghost predicate KindOk(k: Kind) {
    k.MessageKind? ==> DescriptorOk(k.fields)
  }

  /** The member of a oneof with this tag. */
  function Member(members: seq<Field>, tag: nat): (j: nat)
    requires HasTag(Union(members), tag)
    ensures j < |members| && members[j].tag == tag
  {
    if members[0].tag == tag then 0
    else
      assert HasTag(Union(members[1..]), tag) by {
        var j :| 0 <= j < |members| && members[j].tag == tag;
        assert members[1..][j - 1] == members[j];
      }
      1 + Member(members[1..], tag)
  }

  lemma TheMember(members: seq<Field>, tag: nat)
    requires MembersDiffer(members) && HasTag(Union(members), tag)
    ensures forall j :: 0 <= j < |members| && members[j].tag == tag ==> j == Member(members, tag)
  {
    var k := Member(members, tag);
    forall j | 0 <= j < |members| && members[j].tag == tag ensures j == k {
      assert TagsDifferAt(members, k, j) && TagsDifferAt(members, j, k);
    }
  }

  /** pb_field_iter_find: tags differ, so the place the circular search starts from does not matter. */
  function Find(slots: seq<Slot>, tag: nat): (i: nat)
    ensures i <= |slots| && (i < |slots| ==> HasTag(slots[i], tag))
    ensures forall j :: 0 <= j < i ==> !HasTag(slots[j], tag)
  {
    if slots == [] || HasTag(slots[0], tag) then 0
    else
      var i := Find(slots[1..], tag);
      assert forall j :: 1 <= j < i + 1 ==> slots[j] == slots[1..][j - 1];
      i + 1
  }

  /** The loop over a packed array. */
  function DecodePacked(f: Field, max: nat, items: seq<Value>, sub: Bytes): (r: Option<seq<Value>>)
    requires FieldOk(f) && Packable(f.kind) && forall j :: 0 <= j < |items| ==> FieldShape(f, items[j])
    ensures r.Some? ==> forall j :: 0 <= j < |r.value| ==> FieldShape(f, r.value[j])
    decreases |sub|, 1
  {
    if sub == [] then Some(items)
    else if |items| >= max then None
    else
      match DecodeValue(f.kind, [], sub)
      case Failed => None
      case Parsed(v, rest) => DecodePacked(f, max, items + [v], rest)
  }

  lemma StartOf(f: Field, v: Value)
    requires FieldOk(f) && FieldShape(f, v)
    ensures KindOk(f.kind) && StartShape(f.kind, Contents(v))
  {
    assert ValueShape(f.kind, v);
  }

  /** decode_static_field. */
  function DecodeSlot(slot: Slot, c: Content, tag: nat, wireType: nat, s: Bytes): (r: Parsed<Content>)
    requires SlotOk(slot) && SlotShape(slot, c) && HasTag(slot, tag)
    ensures r.Parsed? ==> |r.rest| < |s| && SlotShape(slot, r.value)
    decreases |s|, 2
  {
    match slot
    case Single(f, Repeated(max)) => DecodeRepeated(f, max, c, wireType, s)
    case Single(f, rule) =>
      StartOf(f, c.v);
      (match DecodeValue(f.kind, Contents(c.v), s)
       case Failed => Failed
       case Parsed(v, rest) => Parsed(if rule == Optional then Opt(true, v) else Plain(v), rest))
    case Union(members) =>
      var f := members[Member(members, tag)];
      assert FieldOk(f);
      InitShape(f);
      StartOf(f, InitValue(f));
      assert c.which == tag ==> FieldShape(f, c.v);
      assert c.which == tag ==> StartShape(f.kind, Contents(c.v)) by {
        if c.which == tag { StartOf(f, c.v); }
      }
      match DecodeValue(f.kind, Contents(if c.which == tag then c.v else InitValue(f)), s)
      case Failed => Failed
      case Parsed(v, rest) =>
        TheMember(members, tag);
        Parsed(OneOf(tag, v), rest)
  }

  function DecodeRepeated(f: Field, max: nat, c: Content, wireType: nat, s: Bytes): (r: Parsed<Content>)
    requires FieldOk(f) && SlotShape(Single(f, Repeated(max)), c)
    ensures r.Parsed? ==> |r.rest| < |s| && SlotShape(Single(f, Repeated(max)), r.value)
    decreases |s|, 1
  {
    if wireType == WT_STRING && Packable(f.kind) then
      match Substream(s)
      case Failed => Failed
      case Parsed(sub, rest) =>
        match DecodePacked(f, max, c.items, sub)
        case None => Failed
        case Some(items) => Parsed(Rep(items), rest)
    else if |c.items| >= max then Failed
    else
      InitShape(f);
      match DecodeValue(f.kind, Contents(InitValue(f)), s)
      case Failed => Failed
      case Parsed(v, rest) => Parsed(Rep(c.items + [v]), rest)
  }

  lemma InitShape(f: Field)
    requires FieldOk(f)
    ensures FieldShape(f, InitValue(f))
    decreases f, 0
  {
    if f.kind.MessageKind? {
      DefaultsShape(f.kind.fields);
    }
  }

  lemma DefaultsShape(slots: seq<Slot>)
    requires DescriptorOk(slots)
    ensures MessageShape(slots, Defaults(slots))
    decreases slots, 0
  {
    forall i | 0 <= i < |slots| ensures SlotShape(slots[i], Defaults(slots)[i]) {
      InitSlotShape(slots[i]);
    }
  }

  lemma InitSlotShape(s: Slot)
    requires SlotOk(s)
    ensures SlotShape(s, InitSlot(s))
    decreases s, 0
  {
    match s
    case Single(f, _) => InitShape(f);
    case Union(members) =>
      forall j | 0 <= j < |members| ensures members[j].tag != 0 {
        assert FieldOk(members[j]);
      }
  }

  // ----- messages -----

  predicate IsRequired(s: Slot) {
    s.Single? && s.rule == Required
  }

  /** required_field_index: the number of required fields before. */
  function RequiredIndex(slots: seq<Slot>, i: nat): (n: nat)
    requires i <= |slots|
    ensures n <= i
  {
    if i == 0 then 0 else RequiredIndex(slots, i - 1) + if IsRequired(slots[i - 1]) then 1 else 0
  }

  const MAX_REQUIRED: nat := 64

  /** The check at the end: only the first MAX_REQUIRED required fields are tracked. */
  predicate RequiredSeen(slots: seq<Slot>, seen: set<nat>) {
    forall i :: 0 <= i < |slots| && IsRequired(slots[i]) && RequiredIndex(slots, i) < MAX_REQUIRED ==> i in seen
  }

  function Finish(slots: seq<Slot>, m: seq<Content>, seen: set<nat>): Option<seq<Content>> {
    if RequiredSeen(slots, seen) then Some(m) else None
  }

  /** pb_decode_noinit. */
  function Decode(slots: seq<Slot>, m: seq<Content>, seen: set<nat>, s: Bytes): (r: Option<seq<Content>>)
    requires DescriptorOk(slots) && MessageShape(slots, m)
    ensures r.Some? ==> MessageShape(slots, r.value)
    decreases |s|, 3
  {
    if s == [] then Finish(slots, m, seen)
    else
      match GetTag(s)
      case BadTag => None
      case EndTag => Finish(slots, m, seen)
      case Tag(tag, wireType, rest) =>
        var i := Find(slots, tag);
        if i == |slots| then
          match SkipField(wireType, rest)
          case None => None
          case Some(after) => Decode(slots, m, seen, after)
        else
          match DecodeSlot(slots[i], m[i], tag, wireType, rest)
          case Failed => None
          case Parsed(c, after) => Decode(slots, m[i := c], seen + {i}, after)
  }

  /** pb_decode. */
  function DecodeMessage(slots: seq<Slot>, s: Bytes): (r: Option<seq<Content>>)
    requires DescriptorOk(slots)
  {
    DefaultsShape(slots);
    Decode(slots, Defaults(slots), {}, s)
  }
}
