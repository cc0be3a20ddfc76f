/** Numbers and slices as bytes: util/coding.h and util/coding.cc. Integers are unbounded here; widths are explicit. */
module Coding {
  import opened ByteStrings

  const TWO_32: nat := 0x1_0000_0000
  const TWO_64: nat := 0x1_0000_0000_0000_0000

  /** What a successful read returns: the value and the input behind it. */
  datatype Parsed<T> = Failed | Parsed(value: T, rest: Bytes)

  // ----- fixed width, least significant byte first -----

  function LittleEndian(v: nat, n: nat): (s: Bytes)
    ensures |s| == n
  {
    if n == 0 then [] else [v % 256] + LittleEndian(v / 256, n - 1)
  }

  function FromLittleEndian(s: Bytes): nat {
    if s == [] then 0 else s[0] + 256 * FromLittleEndian(s[1..])
  }

  function Power256(n: nat): nat {
    if n == 0 then 1 else 256 * Power256(n - 1)
  }

  lemma {:induction false} LittleEndianRoundTrip(v: nat, n: nat)
    requires v < Power256(n)
    ensures FromLittleEndian(LittleEndian(v, n)) == v
  {
    if n > 0 {
      LittleEndianRoundTrip(v / 256, n - 1);
    }
  }

  /** Reading bytes never gives a number too large for them, and writing it back gives the bytes. */
  lemma {:induction false} FromLittleEndianRoundTrip(s: Bytes)
    ensures FromLittleEndian(s) < Power256(|s|) && LittleEndian(FromLittleEndian(s), |s|) == s
  {
    if s != [] {
      FromLittleEndianRoundTrip(s[1..]);
    }
  }

  function EncodeFixed32(v: nat): (s: Bytes)
    requires v < TWO_32
    ensures |s| == 4
  {
    LittleEndian(v, 4)
  }

  function DecodeFixed32(s: Bytes): nat
    requires |s| >= 4
  {
    FromLittleEndian(s[..4])
  }

  function EncodeFixed64(v: nat): (s: Bytes)
    requires v < TWO_64
    ensures |s| == 8
  {
    LittleEndian(v, 8)
  }

  function DecodeFixed64(s: Bytes): nat
    requires |s| >= 8
  {
    FromLittleEndian(s[..8])
  }

  lemma Fixed32RoundTrip(v: nat, rest: Bytes)
    requires v < TWO_32
    ensures DecodeFixed32(EncodeFixed32(v) + rest) == v
  {
    assert Power256(4) == 256 * Power256(3) == 256 * (256 * Power256(2)) == 256 * (256 * (256 * Power256(1)));
    assert Power256(4) == TWO_32;
    assert (EncodeFixed32(v) + rest)[..4] == EncodeFixed32(v);
    LittleEndianRoundTrip(v, 4);
  }

  lemma Power256Of8()
    ensures Power256(8) == TWO_64
  {
    assert Power256(4) == 256 * Power256(3) == 256 * (256 * Power256(2)) == 256 * (256 * (256 * Power256(1)));
    assert Power256(4) == TWO_32;
    assert Power256(8) == 256 * Power256(7) == 256 * (256 * Power256(6)) == 256 * (256 * (256 * Power256(5)));
  }

  lemma Fixed64RoundTrip(v: nat, rest: Bytes)
    requires v < TWO_64
    ensures DecodeFixed64(EncodeFixed64(v) + rest) == v
  {
    Power256Of8();
    assert (EncodeFixed64(v) + rest)[..8] == EncodeFixed64(v);
    LittleEndianRoundTrip(v, 8);
  }

  // ----- varints: seven bits a byte, the top bit says that more follow -----

  function EncodeVarint(v: nat): (s: Bytes)
    ensures |s| > 0
  {
    if v < 128 then [v] else [v % 128 + 128] + EncodeVarint(v / 128)
  }

  /** The value of the first varint, which must end within `n` bytes. */
  function Varint(s: Bytes, n: nat): Parsed<nat> {
    if n == 0 || s == [] then Failed
    else if s[0] < 128 then Parsed(s[0], s[1..])
    else
      match Varint(s[1..], n - 1)
      case Failed => Failed
      case Parsed(v, rest) => Parsed(s[0] - 128 + 128 * v, rest)
  }

  lemma {:induction false} VarintConsumes(s: Bytes, n: nat)
    ensures Varint(s, n).Parsed? ==> |Varint(s, n).rest| < |s|
  {
    if n > 0 && s != [] && s[0] >= 128 {
      VarintConsumes(s[1..], n - 1);
    }
  }

  /** Bits beyond the width are shifted out. */
  function GetVarint32(s: Bytes): Parsed<nat> {
    match Varint(s, 5)
    case Failed => Failed
    case Parsed(v, rest) => Parsed(v % TWO_32, rest)
  }

  function GetVarint64(s: Bytes): Parsed<nat> {
    match Varint(s, 10)
    case Failed => Failed
    case Parsed(v, rest) => Parsed(v % TWO_64, rest)
  }

  function Power128(n: nat): nat {
    if n == 0 then 1 else 128 * Power128(n - 1)
  }

  lemma {:induction false} VarintRoundTrip(v: nat, n: nat, rest: Bytes)
    requires n > 0 && v < Power128(n)
    ensures Varint(EncodeVarint(v) + rest, n) == Parsed(v, rest) && |EncodeVarint(v)| <= n
    decreases n
  {
    var s := EncodeVarint(v) + rest;
    assert Power128(1) == 128;
    if v < 128 {
      assert s[1..] == rest;
    } else {
      assert s[1..] == EncodeVarint(v / 128) + rest;
      VarintRoundTrip(v / 128, n - 1, rest);
    }
  }

  lemma Varint32RoundTrip(v: nat, rest: Bytes)
    requires v < TWO_32
    ensures GetVarint32(EncodeVarint(v) + rest) == Parsed(v, rest) && |EncodeVarint(v)| <= 5
  {
    assert Power128(5) == 128 * Power128(4) == 128 * (128 * Power128(3)) == 128 * (128 * (128 * Power128(2)));
    assert Power128(2) == 128 * Power128(1) == 128 * (128 * Power128(0));
    VarintRoundTrip(v, 5, rest);
  }

  lemma Varint64RoundTrip(v: nat, rest: Bytes)
    requires v < TWO_64
    ensures GetVarint64(EncodeVarint(v) + rest) == Parsed(v, rest) && |EncodeVarint(v)| <= 10
  {
    assert Power128(5) == 128 * Power128(4) == 128 * (128 * Power128(3)) == 128 * (128 * (128 * Power128(2)));
    assert Power128(2) == 128 * Power128(1) == 128 * (128 * Power128(0));
    assert Power128(10) == 128 * Power128(9) == 128 * (128 * Power128(8)) == 128 * (128 * (128 * Power128(7)));
    assert Power128(7) == 128 * Power128(6) == 128 * (128 * Power128(5));
    VarintRoundTrip(v, 10, rest);
  }

  /** EncodeVarint64: the loop that shifts seven bits out at a time. */
  method EncodeVarint64(v: nat) returns (dst: Bytes)
    ensures dst == EncodeVarint(v)
  {
    dst := [];
    var left := v;
    while left >= 128
      invariant dst + EncodeVarint(left) == EncodeVarint(v)
    {
      dst := dst + [left % 128 + 128];
      left := left / 128;
    }
    dst := dst + [left];
  }

  /** EncodeVarint32: one branch for each length. */
  method EncodeVarint32(v: nat) returns (dst: Bytes)
    requires v < TWO_32
    ensures dst == EncodeVarint(v)
  {
    if v < 0x80 {
      dst := [v];
    } else if v < 0x4000 {
      dst := [v % 128 + 128, v / 128];
    } else if v < 0x20_0000 {
      dst := [v % 128 + 128, v / 128 % 128 + 128, v / 0x4000];
    } else if v < 0x1000_0000 {
      dst := [v % 128 + 128, v / 128 % 128 + 128, v / 0x4000 % 128 + 128, v / 0x20_0000];
    } else {
      dst := [v % 128 + 128, v / 128 % 128 + 128, v / 0x4000 % 128 + 128, v / 0x20_0000 % 128 + 128, v / 0x1000_0000];
    }
    EncodeVarintSteps(v);
  }

  lemma EncodeVarintSteps(v: nat)
    requires v < TWO_32
    ensures v >= 0x80 ==> EncodeVarint(v) == [v % 128 + 128] + EncodeVarint(v / 128)
    ensures v >= 0x4000 ==> EncodeVarint(v / 128) == [v / 128 % 128 + 128] + EncodeVarint(v / 0x4000)
    ensures v >= 0x20_0000 ==> EncodeVarint(v / 0x4000) == [v / 0x4000 % 128 + 128] + EncodeVarint(v / 0x20_0000)
    ensures v >= 0x1000_0000 ==>
              EncodeVarint(v / 0x20_0000) == [v / 0x20_0000 % 128 + 128] + EncodeVarint(v / 0x1000_0000)
    ensures v / 0x1000_0000 < 128
  {
    assert v / 128 / 128 == v / 0x4000 && v / 0x4000 / 128 == v / 0x20_0000 && v / 0x20_0000 / 128 == v / 0x1000_0000;
  }

  /** `bits << shift`, where `place` is two to the power `shift`. */
  function Shifted(bits: nat, place: nat): nat {
    bits * place
  }

  /** The decoding loop of GetVarint32PtrFallback and GetVarint64Ptr: at most `n` bytes, bits beyond `width` lost. */
  method DecodeVarint(s: Bytes, n: nat, width: nat) returns (r: Parsed<nat>)
    requires (n == 5 && width == TWO_32) || (n == 10 && width == TWO_64)
    ensures n == 5 ==> r == GetVarint32(s)
    ensures n == 10 ==> r == GetVarint64(s)
  {
    hide Shifted, Varint;
    var p, place, result := 0, 1, 0;
    StartVarint(s, n);
    ghost var full := 0;
    while p < n && p < |s|
      invariant 0 <= p <= n && p <= |s| && place == Power128(p)
      invariant 0 <= full < place && result == full % width
      invariant Varint(s, n) == Continue(full, place, Varint(s[p..], n - p))
    {
      var byte := s[p];
      ContinueStep(s, n, p, full, place);
      AddBits(full, Shifted(byte % 128, place), width);
      result := (result + Shifted(byte % 128, place)) % width;
      full := full + Shifted(byte % 128, place);
      p := p + 1;
      if byte < 128 {
        return Parsed(result, s[p..]);
      }
      place := place * 128;
    }
    NoVarint(s, n, p);
    r := Failed;
  }

  /** The outcome of a varint whose first bytes gave `full` and whose next byte counts `place`. */
  function Continue(full: nat, place: nat, tail: Parsed<nat>): Parsed<nat> {
    match tail
    case Failed => Failed
    case Parsed(v, rest) => Parsed(full + v * place, rest)
  }

  lemma StartVarint(s: Bytes, n: nat)
    ensures Varint(s, n) == Continue(0, 1, Varint(s[0..], n - 0))
  {
    assert s[0..] == s;
  }

  lemma NoVarint(s: Bytes, n: nat, p: nat)
    requires p <= n && p <= |s| && (p == n || p == |s|)
    ensures Varint(s[p..], n - p) == Failed
  {
  }

  lemma ContinueStep(s: Bytes, n: nat, p: nat, full: nat, place: nat)
    requires p < n && p < |s| && full < place
    ensures s[p] < 128 ==>
              Continue(full, place, Varint(s[p..], n - p)) == Parsed(full + Shifted(s[p], place), s[p + 1..])
    ensures var tail := Varint(s[p + 1..], n - (p + 1));
      s[p] >= 128 ==>
        Continue(full, place, Varint(s[p..], n - p)) == Continue(full + Shifted(s[p] % 128, place), place * 128, tail)
    ensures full + Shifted(s[p] % 128, place) < place * 128
  {
    assert s[p..][1..] == s[p + 1..];
    MulMono(s[p] % 128, 127, place);
    if s[p] >= 128 {
      match Varint(s[p + 1..], n - (p + 1))
      case Failed =>
      case Parsed(v, rest) =>
        assert (s[p] - 128 + 128 * v) * place == (s[p] - 128) * place + v * (place * 128);
    }
  }

  lemma MulMono(a: nat, b: nat, c: nat)
    requires a <= b
    ensures a * c <= b * c
  {
  }

  lemma WholeTurns(turns: nat, y: nat)
    ensures (TWO_32 * turns + y) % TWO_32 == y % TWO_32 && (TWO_64 * turns + y) % TWO_64 == y % TWO_64
  {
  }

  /** Truncating the sum so far loses nothing that the truncated result would keep. */
  lemma AddBits(full: nat, x: nat, width: nat)
    requires width == TWO_32 || width == TWO_64
    ensures (full % width + x) % width == (full + x) % width
  {
    WholeTurns(full / width, full % width + x);
    if width == TWO_32 {
      assert full + x == TWO_32 * (full / TWO_32) + (full % TWO_32 + x);
    } else {
      assert full + x == TWO_64 * (full / TWO_64) + (full % TWO_64 + x);
    }
  }

  // ----- length-prefixed slices -----

  function PutLengthPrefixed(s: Bytes): Bytes {
    EncodeVarint(|s|) + s
  }

  function GetLengthPrefixed(s: Bytes): Parsed<Bytes> {
    match GetVarint32(s)
    case Failed => Failed
    case Parsed(len, rest) => if len <= |rest| then Parsed(rest[..len], rest[len..]) else Failed
  }

  lemma LengthPrefixedRoundTrip(s: Bytes, rest: Bytes)
    requires |s| < TWO_32
    ensures GetLengthPrefixed(PutLengthPrefixed(s) + rest) == Parsed(s, rest)
  {
    assert PutLengthPrefixed(s) + rest == EncodeVarint(|s|) + (s + rest);
    Varint32RoundTrip(|s|, s + rest);
  }

  // ----- arrays of fixed-width numbers -----

  predicate InWidth(points: seq<nat>) {
    forall j :: 0 <= j < |points| ==> points[j] < TWO_32
  }

  function Fixed32Array(points: seq<nat>): (s: Bytes)
    requires InWidth(points)
    ensures |s| == 4 * |points|
  {
    if points == [] then [] else Fixed32Array(points[..|points| - 1]) + EncodeFixed32(points[|points| - 1])
  }

  lemma {:induction false} Fixed32At(points: seq<nat>, j: nat)
    requires InWidth(points)
    requires j < |points|
    ensures Fixed32Array(points)[4 * j..4 * j + 4] == EncodeFixed32(points[j])
    decreases |points|
  {
    var last := |points| - 1;
    if j < last {
      Fixed32At(points[..last], j);
      assert Fixed32Array(points)[4 * j..4 * j + 4] == Fixed32Array(points[..last])[4 * j..4 * j + 4];
    }
  }

  lemma MiddleSlice(s: Bytes, before: Bytes, mid: Bytes, after: Bytes, i: nat, n: nat)
    requires s == before + mid + after && i + n <= |mid|
    ensures |before| + i + n <= |s| && s[|before| + i..|before| + i + n] == mid[i..i + n]
  {
  }

  lemma Fixed32Here(s: Bytes, at: nat, v: nat)
    requires at + 4 <= |s| && v < TWO_32 && s[at..at + 4] == EncodeFixed32(v)
    ensures DecodeFixed32(s[at..]) == v
  {
    assert s[at..] == s[at..at + 4] + s[at + 4..];
    Fixed32RoundTrip(v, s[at + 4..]);
  }

  /** Reading element `j` of an array in the middle of other bytes. */
  lemma Fixed32InArray(s: Bytes, before: Bytes, points: seq<nat>, after: Bytes, j: nat)
    requires InWidth(points) && j < |points| && s == before + Fixed32Array(points) + after
    ensures |before| + 4 * j + 4 <= |s| && DecodeFixed32(s[|before| + 4 * j..]) == points[j]
  {
    hide Fixed32Array, LittleEndian, FromLittleEndian;
    Fixed32At(points, j);
    MiddleSlice(s, before, Fixed32Array(points), after, 4 * j, 4);
    Fixed32Here(s, |before| + 4 * j, points[j]);
  }
}
