/** Checksums as the formats use them: an unknown extendable function, stored masked (util/crc32c.h). */
module Checksums {
  import opened ByteStrings
  import opened Coding

  /** `extend(extend(c, a), b)` is `extend(c, a + b)`; nothing else is known about the CRC. */
  datatype Crc = Crc(extend: (nat, Bytes) -> nat)

  ghost predicate Lawful(c: Crc) {
    && (forall a, x, y :: ExtendsInSteps(c, a, x, y))
    && (forall a, x :: c.extend(a, x) < TWO_32)
  }

  ghost predicate ExtendsInSteps(c: Crc, a: nat, x: Bytes, y: Bytes) {
    c.extend(c.extend(a, x), y) == c.extend(a, x + y)
  }

  type Checksum = c: Crc | Lawful(c) witness Crc((a, x) => 0)

  const MASK_DELTA: nat := 0xa282_ead8

  /** Rotate right by 15 bits and add a constant, in 32 bits. */
  function Mask(crc: nat): (m: nat)
    requires crc < TWO_32
    ensures m < TWO_32
  {
    (crc / 0x8000 + crc % 0x8000 * 0x2_0000 + MASK_DELTA) % TWO_32
  }

  function Unmask(m: nat): nat
    requires m < TWO_32
  {
    var rot := (m + TWO_32 - MASK_DELTA) % TWO_32;
    rot / 0x2_0000 + rot % 0x2_0000 * 0x8000
  }

  lemma UnmaskSum(rot: nat)
    requires rot < TWO_32
    ensures ((rot + MASK_DELTA) % TWO_32 + TWO_32 - MASK_DELTA) % TWO_32 == rot
  {
  }

  lemma UnmaskMask(crc: nat)
    requires crc < TWO_32
    ensures Unmask(Mask(crc)) == crc
  {
    var high, low := crc / 0x8000, crc % 0x8000;
    var rot := high + low * 0x2_0000;
    assert high < 0x2_0000 && rot < TWO_32;
    UnmaskSum(rot);
    assert rot / 0x2_0000 == low && rot % 0x2_0000 == high;
  }

  lemma MaskUnmask(m: nat)
    requires m < TWO_32
    ensures Unmask(m) < TWO_32 && Mask(Unmask(m)) == m
  {
    var rot := (m + TWO_32 - MASK_DELTA) % TWO_32;
    var high, low := rot % 0x2_0000, rot / 0x2_0000;
    assert low < 0x8000 && Unmask(m) == low + high * 0x8000;
    assert Unmask(m) / 0x8000 == high && Unmask(m) % 0x8000 == low;
    assert high + low * 0x2_0000 == rot;
    assert (rot + MASK_DELTA) % TWO_32 == m;
  }
}

/**
 The format of log files and what a reader makes of any file (db/log_format.h, db/log_writer.cc, db/log_reader.cc).
 */
module LogFormat {
  import opened ByteStrings
  import opened Coding
  import opened Checksums

  const BLOCK: nat := 32768
  const HEADER: nat := 7

  const ZERO_TYPE: Byte := 0
  const FULL_TYPE: Byte := 1
  const FIRST_TYPE: Byte := 2
  const MIDDLE_TYPE: Byte := 3
  const LAST_TYPE: Byte := 4

  /** ReadPhysicalRecord reports the end and bad records by these types, so that stored ones are taken for the same. */
  const EOF_TYPE: Byte := 5
  const BAD_RECORD_TYPE: Byte := 6

  // ----- what the writer appends -----

  /** A header of checksum, length and type, and the payload. */
  function PhysicalRecord(crc: Checksum, t: Byte, data: Bytes): (s: Bytes)
    requires |data| < 0x1_0000
    ensures |s| == HEADER + |data|
  {
    EncodeFixed32(Mask(crc.extend(0, [t] + data))) + [|data| % 256, |data| / 256, t] + data
  }

  /** How many bytes are left in the block of file offset `p`; a full block counts as a new one. */
  function Leftover(p: nat): (n: nat)
    ensures 1 <= n <= BLOCK
  {
    BLOCK - p % BLOCK
  }

  function Zeros(n: nat): (s: Bytes)
    ensures |s| == n
  {
    seq(n, i => 0)
  }

  /** A header never starts in the last six bytes of a block; they are filled with zeros. */
  function Trailer(p: nat): Bytes {
    if Leftover(p) < HEADER then Zeros(Leftover(p)) else []
  }

  function HeaderAt(p: nat): (q: nat)
    ensures p <= q && Leftover(q) >= HEADER
  {
    if Leftover(p) < HEADER then
      BlockEndAligned(p);
      p + Leftover(p)
    else p
  }

  lemma BlockEndAligned(p: nat)
    ensures (p + Leftover(p)) % BLOCK == 0
  {
  }

  function FragmentType(begin: bool, end: bool): Byte {
    if begin && end then FULL_TYPE else if begin then FIRST_TYPE else if end then LAST_TYPE else MIDDLE_TYPE
  }

  /** How much of `data` goes into the fragment whose header follows offset `p`. */
  function FragmentLength(p: nat, data: Bytes): (n: nat)
    ensures n <= |data| && n <= BLOCK - HEADER
  {
    var avail := Leftover(HeaderAt(p)) - HEADER;
    if |data| < avail then |data| else avail
  }

  /** What AddRecord appends to a file of length `p`; `begin` is false for the fragments after the first. */
  function Emit(crc: Checksum, p: nat, begin: bool, data: Bytes): (s: Bytes)
    ensures |s| >= HEADER
    decreases |data|, if Leftover(HeaderAt(p)) == HEADER then 1 else 0
  {
    var n := FragmentLength(p, data);
    var record := PhysicalRecord(crc, FragmentType(begin, n == |data|), data[..n]);
    if n == |data| then Trailer(p) + record
    else
      var next := HeaderAt(p) + HEADER + n;
      FragmentFillsBlock(p, data);
      Trailer(p) + record + Emit(crc, next, false, data[n..])
  }

  /** A fragment that is not the last one ends exactly at the end of a block. */
  lemma FragmentFillsBlock(p: nat, data: Bytes)
    requires FragmentLength(p, data) < |data|
    ensures var next := HeaderAt(p) + HEADER + FragmentLength(p, data);
      next % BLOCK == 0 && Leftover(next) == BLOCK && HeaderAt(next) == next
  {
    var q := HeaderAt(p);
    BlockEndAligned(q);
    assert q + HEADER + FragmentLength(p, data) == q + Leftover(q);
  }

  /** A whole log: one AddRecord after the other, from file length `p` on. */
  function Written(crc: Checksum, p: nat, records: seq<Bytes>): Bytes
    decreases |records|
  {
    if records == [] then []
    else
      var first := Emit(crc, p, true, records[0]);
      first + Written(crc, p + |first|, records[1..])
  }

  // ----- what the reader makes of any bytes -----

  /** One step of the reader: a fragment, a reason to skip to `next` with the sizes reported as dropped, or the end. */
  datatype Physical = Fragment(typ: Byte, data: Bytes, next: nat) | Bad(next: nat, drops: seq<nat>) | Eof

  /** What ReadPhysicalRecord makes of a buffer that ends at file offset `end` and holds at least a header. */
  function ParseHeader(crc: Checksum, buffer: Bytes, end: nat, eof: bool): (r: Physical)
    requires HEADER <= |buffer| <= end
    ensures if r.Eof? then eof else end - |buffer| < r.next <= end
  {
    var length, t := buffer[4] as int + 256 * buffer[5] as int, buffer[6];
    if HEADER + length > |buffer| then (if eof then Eof else Bad(end, [|buffer|]))
    else if t == ZERO_TYPE && length == 0 then Bad(end, [])
    else if Unmask(Stored(buffer)) != crc.extend(0, buffer[6..HEADER + length]) then Bad(end, [|buffer|])
    else Fragment(t, buffer[HEADER..HEADER + length], end - |buffer| + HEADER + length)
  }

  /** ReadPhysicalRecord at file offset `p`. The reader holds the block of `p`, or what the file has of it. */
  function ReadPhysical(crc: Checksum, f: Bytes, p: nat): (r: Physical)
    requires p <= |f|
    ensures !r.Eof? ==> p < r.next <= |f|
    decreases |f| - p
  {
    var full := p + Leftover(p) <= |f|;
    var end := if full then p + Leftover(p) else |f|;
    if end - p < HEADER then (if full then ReadPhysical(crc, f, end) else Eof)
    else ParseHeader(crc, f[p..end], end, !full)
  }

  /** The checksum field of a header. */
  function Stored(header: Bytes): (v: nat)
    requires HEADER <= |header|
    ensures v < TWO_32
  {
    FromLittleEndianRoundTrip(header[..4]);
    Fixed32Bound();
    DecodeFixed32(header)
  }

  lemma Fixed32Bound()
    ensures Power256(4) == TWO_32
  {
    assert Power256(4) == 256 * Power256(3) == 256 * (256 * Power256(2)) == 256 * (256 * (256 * Power256(1)));
  }

  datatype Logical = Record(data: Bytes, next: nat, drops: seq<nat>) | End(drops: seq<nat>)

  /** The size of a partial record, reported when a new record starts in its place. */
  function Partial(inFragmented: bool, scratch: Bytes): seq<nat> {
    if inFragmented && scratch != [] then [|scratch|] else []
  }

  /** What ReadRecord makes of a fragment: a whole record, the end, or more to read with these variables. */
  datatype Taken = Whole(record: Bytes, drops: seq<nat>) | Ended(drops: seq<nat>)
                 | GoOn(inFragmented: bool, scratch: Bytes, drops: seq<nat>)

  function Take(t: Byte, data: Bytes, inFragmented: bool, scratch: Bytes, drops: seq<nat>): Taken {
    if t == FULL_TYPE then Whole(data, drops + Partial(inFragmented, scratch))
    else if t == FIRST_TYPE then GoOn(true, data, drops + Partial(inFragmented, scratch))
    else if t == MIDDLE_TYPE then
      if inFragmented then GoOn(true, scratch + data, drops) else GoOn(false, [], drops + [|data|])
    else if t == LAST_TYPE then
      if inFragmented then Whole(scratch + data, drops) else GoOn(false, [], drops + [|data|])
    else if t == EOF_TYPE then Ended(drops)
    else if t == BAD_RECORD_TYPE then GoOn(false, [], if inFragmented then drops + [|scratch|] else drops)
    else GoOn(false, [], drops + [|data| + if inFragmented then |scratch| else 0])
  }

  /** ReadRecord from offset `p`: fragments are joined in `scratch`; `drops` lists the sizes reported as corrupt. */
  function ReadLogical(crc: Checksum, f: Bytes, p: nat, inFragmented: bool, scratch: Bytes,
                       drops: seq<nat>): (r: Logical)
    requires p <= |f|
    ensures r.Record? ==> p < r.next <= |f|
    decreases |f| - p
  {
    match ReadPhysical(crc, f, p)
    case Eof => End(drops)
    case Bad(next, more) =>
      ReadLogical(crc, f, next, false, [], if inFragmented then drops + more + [|scratch|] else drops + more)
    case Fragment(t, data, next) =>
      match Take(t, data, inFragmented, scratch, drops)
      case Whole(record, more) => Record(record, next, more)
      case Ended(more) => End(more)
      case GoOn(partial, joined, more) => ReadLogical(crc, f, next, partial, joined, more)
  }

  /** All records from offset `p` on, and all drops reported. */
  function ReadAll(crc: Checksum, f: Bytes, p: nat): (seq<Bytes>, seq<nat>)
    requires p <= |f|
    decreases |f| - p
  {
    match ReadLogical(crc, f, p, false, [], [])
    case End(drops) => ([], drops)
    case Record(data, next, drops) =>
      var (records, more) := ReadAll(crc, f, next);
      ([data] + records, drops + more)
  }

  // ----- reading what was written -----

  /** From offset `p` on, `f` and `s` agree as far as both go. */
  predicate Agree(f: Bytes, p: nat, s: Bytes)
    requires p <= |f|
  {
    f[p..] <= s || s <= f[p..]
  }

  lemma AgreeSplit(f: Bytes, p: nat, a: Bytes, b: Bytes)
    requires p <= |f| && Agree(f, p, a + b)
    ensures Agree(f, p, a)
    ensures p + |a| <= |f| ==> Agree(f, p + |a|, b) && f[p..p + |a|] == a
  {
    var tail := f[p..];
    if p + |a| <= |f| {
      var n := if |tail| < |a + b| then |tail| else |a + b|;
      assert tail[..n] == (a + b)[..n];
      assert tail[..|a|] == tail[..n][..|a|] == (a + b)[..n][..|a|] == a;
      assert f[p + |a|..] == tail[|a|..];
      assert tail[|a|..][..n - |a|] == tail[..n][|a|..] == (a + b)[..n][|a|..] == b[..n - |a|];
    } else {
      assert tail == (a + b)[..|tail|] == a[..|tail|];
    }
  }

  /** The fields of a header that the buffer holds. */
  lemma HeaderRead(crc: Checksum, buffer: Bytes, t: Byte, data: Bytes)
    requires HEADER <= |buffer| && |data| < 0x1_0000 && buffer[..HEADER] == PhysicalRecord(crc, t, data)[..HEADER]
    ensures buffer[4] as int + 256 * buffer[5] as int == |data| && buffer[6] == t
    ensures Unmask(Stored(buffer)) == crc.extend(0, [t] + data)
  {
    var header, sum := PhysicalRecord(crc, t, data)[..HEADER], crc.extend(0, [t] + data);
    assert buffer[..HEADER][4] == header[4] && buffer[..HEADER][5] == header[5] && buffer[..HEADER][6] == header[6];
    assert buffer[..4] == buffer[..HEADER][..4] == header[..4] == EncodeFixed32(Mask(sum));
    assert buffer == EncodeFixed32(Mask(sum)) + buffer[4..];
    Fixed32RoundTrip(Mask(sum), buffer[4..]);
    UnmaskMask(sum);
  }

  lemma ParseWhole(crc: Checksum, buffer: Bytes, end: nat, eof: bool, t: Byte, data: Bytes)
    requires HEADER + |data| <= |buffer| <= end && t != ZERO_TYPE && |data| < 0x1_0000
    requires buffer[..HEADER + |data|] == PhysicalRecord(crc, t, data)
    ensures ParseHeader(crc, buffer, end, eof) == Fragment(t, data, end - |buffer| + HEADER + |data|)
  {
    var s := PhysicalRecord(crc, t, data);
    assert buffer[..HEADER] == buffer[..HEADER + |data|][..HEADER];
    HeaderRead(crc, buffer, t, data);
    assert buffer[6..HEADER + |data|] == buffer[..HEADER + |data|][6..] == s[6..] == [t] + data;
    assert buffer[HEADER..HEADER + |data|] == buffer[..HEADER + |data|][HEADER..] == s[HEADER..] == data;
  }

  lemma ParseCut(crc: Checksum, buffer: Bytes, end: nat, t: Byte, data: Bytes)
    requires HEADER <= |buffer| < HEADER + |data| && |buffer| <= end && |data| < 0x1_0000
    requires buffer == PhysicalRecord(crc, t, data)[..|buffer|]
    ensures ParseHeader(crc, buffer, end, true) == Eof
  {
    assert buffer[..HEADER] == PhysicalRecord(crc, t, data)[..|buffer|][..HEADER];
    HeaderRead(crc, buffer, t, data);
  }

  /** A physical record is read back whole, or its cut is taken for the end of the file. */
  lemma PhysicalRecordRead(crc: Checksum, f: Bytes, p: nat, t: Byte, data: Bytes)
    requires p <= |f| && HEADER + |data| <= Leftover(p) && t != ZERO_TYPE
    requires Agree(f, p, PhysicalRecord(crc, t, data))
    ensures ReadPhysical(crc, f, p)
         == if p + HEADER + |data| <= |f| then Fragment(t, data, p + HEADER + |data|) else Eof
  {
    hide PhysicalRecord, ParseHeader;
    var s := PhysicalRecord(crc, t, data);
    var end := if p + Leftover(p) <= |f| then p + Leftover(p) else |f|;
    var buffer := f[p..end];
    if |s| <= |f| - p {
      assert s + [] == s;
      AgreeSplit(f, p, s, []);
      assert p + |s| <= end && buffer[..|s|] == f[p..p + |s|];
      ParseWhole(crc, buffer, end, p + Leftover(p) > |f|, t, data);
    } else {
      assert f[p..] <= s && buffer == f[p..];
      if HEADER <= |buffer| {
        ParseCut(crc, buffer, end, t, data);
      }
    }
  }

  /** The reader steps over a trailer, or takes a cut one for the end of the file. */
  lemma TrailerRead(crc: Checksum, f: Bytes, p: nat)
    requires p <= |f|
    ensures |Trailer(p)| == HeaderAt(p) - p
    ensures HeaderAt(p) <= |f| ==> ReadPhysical(crc, f, p) == ReadPhysical(crc, f, HeaderAt(p))
    ensures HeaderAt(p) > |f| ==> ReadPhysical(crc, f, p) == Eof
  {
  }

  /** The outcome of reading one record that the writer appended at `p`, from its first or a later fragment on. */
  function Outcome(f: Bytes, p: nat, length: nat, data: Bytes, drops: seq<nat>): Logical {
    if p + length <= |f| then Record(data, p + length, drops) else End(drops)
  }

  /** Reading one appended record gives it back if the file holds all of it, and the end of the file otherwise. */
  lemma {:induction false} EmittedRead(crc: Checksum, f: Bytes, p: nat, begin: bool, data: Bytes, scratch: Bytes,
                                       drops: seq<nat>)
    requires p <= |f| && Agree(f, p, Emit(crc, p, begin, data)) && (begin ==> scratch == [])
    ensures ReadLogical(crc, f, p, !begin, scratch, drops)
         == Outcome(f, p, |Emit(crc, p, begin, data)|, scratch + data, drops)
    decreases |data|, if Leftover(HeaderAt(p)) == HEADER then 1 else 0
  {
    hide ReadPhysical, PhysicalRecord, Trailer, Agree;
    var n, q := FragmentLength(p, data), HeaderAt(p);
    var t := FragmentType(begin, n == |data|);
    var record := PhysicalRecord(crc, t, data[..n]);
    var rest := if n == |data| then [] else Emit(crc, q + HEADER + n, false, data[n..]);
    assert Emit(crc, p, begin, data) == Trailer(p) + (record + rest);
    AgreeSplit(f, p, Trailer(p), record + rest);
    TrailerRead(crc, f, p);
    if q <= |f| {
      AgreeSplit(f, q, record, rest);
      PhysicalRecordRead(crc, f, q, t, data[..n]);
    }
    FragmentRead(crc, f, p, begin, data, n, scratch, drops, q + HEADER + n);
    assert data == data[..n] + data[n..];
    assert scratch + data == (scratch + data[..n]) + data[n..];
    if n < |data| && q + HEADER + n <= |f| {
      FragmentFillsBlock(p, data);
      EmittedRead(crc, f, q + HEADER + n, false, data[n..], scratch + data[..n], drops);
    }
  }

  /** A fragment in its place ends the record or is one more piece of it. */
  lemma FragmentRead(crc: Checksum, f: Bytes, p: nat, begin: bool, data: Bytes, n: nat, scratch: Bytes, drops: seq<nat>,
                     next: nat)
    requires p <= |f| && n <= |data| && (begin ==> scratch == [])
    requires ReadPhysical(crc, f, p)
          == if next <= |f| then Fragment(FragmentType(begin, n == |data|), data[..n], next) else Eof
    ensures next > |f| ==> ReadLogical(crc, f, p, !begin, scratch, drops) == End(drops)
    ensures next <= |f| && n == |data| ==>
      ReadLogical(crc, f, p, !begin, scratch, drops) == Record(scratch + data, next, drops)
    ensures next <= |f| && n < |data| ==>
      ReadLogical(crc, f, p, !begin, scratch, drops) == ReadLogical(crc, f, next, true, scratch + data[..n], drops)
  {
    hide ReadPhysical;
    assert n == |data| ==> data[..n] == data;
    assert begin ==> scratch + data[..n] == data[..n];
    assert drops + [] == drops;
  }

  /** How many of the records, appended from file length `p` on, end within `length` bytes. */
  function WholeRecords(crc: Checksum, p: nat, records: seq<Bytes>, length: nat): (n: nat)
    ensures n <= |records|
    decreases |records|
  {
    if records == [] then 0
    else
      var size := |Emit(crc, p, true, records[0])|;
      if size <= length then 1 + WholeRecords(crc, p + size, records[1..], length - size) else 0
  }

  lemma CutSplit(f: Bytes, p: nat, a: Bytes, b: Bytes)
    requires p <= |f| && f[p..] <= a + b
    ensures Agree(f, p, a)
    ensures p + |a| <= |f| ==> f[p + |a|..] <= b
  {
    AgreeSplit(f, p, a, b);
    if p + |a| <= |f| {
      assert f[p + |a|..] == f[p..][|a|..];
      assert f[p..] == (a + b)[..|f| - p];
      assert (a + b)[..|f| - p][|a|..] == b[..|f| - p - |a|];
    }
  }

  lemma ReadOneMore(crc: Checksum, f: Bytes, p: nat, data: Bytes, next: nat)
    requires p <= |f| && ReadLogical(crc, f, p, false, [], []) == Record(data, next, [])
    ensures ReadAll(crc, f, p) == ([data] + ReadAll(crc, f, next).0, ReadAll(crc, f, next).1)
  {
    hide ReadLogical;
    assert [] + ReadAll(crc, f, next).1 == ReadAll(crc, f, next).1;
  }

  /** From any cut of an appended log the reader gets exactly the records that it holds whole, and reports nothing. */
  lemma {:induction false} CutLogRead(crc: Checksum, f: Bytes, p: nat, records: seq<Bytes>)
    requires p <= |f| && f[p..] <= Written(crc, p, records)
    ensures ReadAll(crc, f, p) == (records[..WholeRecords(crc, p, records, |f| - p)], [])
    decreases |records|
  {
    hide Emit, ReadPhysical, ReadLogical, Agree, ReadAll, Written, WholeRecords;
    if records == [] {
      NothingRead(crc, f, p);
    } else {
      CutLogStep(crc, f, p, records);
      var size := |Emit(crc, p, true, records[0])|;
      if p + size <= |f| {
        CutLogRead(crc, f, p + size, records[1..]);
        var k := WholeRecords(crc, p + size, records[1..], |f| - p - size);
        assert [records[0]] + records[1..][..k] == records[..k + 1];
      }
    }
  }

  lemma NothingRead(crc: Checksum, f: Bytes, p: nat)
    requires p <= |f| && f[p..] <= Written(crc, p, [])
    ensures ReadAll(crc, f, p) == ([][..WholeRecords(crc, p, [], |f| - p)], [])
  {
    assert |f| == p && ReadPhysical(crc, f, p) == Eof;
  }

  /** Reading the first record, if the file holds it whole, leaves the rest of the records to read. */
  lemma CutLogStep(crc: Checksum, f: Bytes, p: nat, records: seq<Bytes>)
    requires p <= |f| && records != [] && f[p..] <= Written(crc, p, records)
    ensures var next := p + |Emit(crc, p, true, records[0])|;
      if next <= |f| then
        && f[next..] <= Written(crc, next, records[1..])
        && ReadAll(crc, f, p) == ([records[0]] + ReadAll(crc, f, next).0, ReadAll(crc, f, next).1)
        && WholeRecords(crc, p, records, |f| - p) == 1 + WholeRecords(crc, next, records[1..], |f| - next)
      else
        ReadAll(crc, f, p) == (records[..WholeRecords(crc, p, records, |f| - p)], [])
  {
    hide Emit, ReadPhysical, ReadLogical, Agree;
    var next := p + |Emit(crc, p, true, records[0])|;
    CutSplit(f, p, Emit(crc, p, true, records[0]), Written(crc, next, records[1..]));
    EmittedRead(crc, f, p, true, records[0], [], []);
    assert [] + records[0] == records[0];
    if next <= |f| {
      hide ReadAll;
      ReadOneMore(crc, f, p, records[0], next);
    } else {
      assert records[..0] == [];
    }
  }

  /** WholeRecords is what its name says: these records end within the cut, and one more would not. */
  lemma {:induction false} WholeRecordsEnd(crc: Checksum, p: nat, records: seq<Bytes>, length: nat)
    ensures var k := WholeRecords(crc, p, records, length);
      && |Written(crc, p, records[..k])| <= length
      && (k < |records| ==> |Written(crc, p, records[..k + 1])| > length)
    decreases |records|
  {
    hide Emit;
    if records != [] {
      var first := Emit(crc, p, true, records[0]);
      var k := WholeRecords(crc, p, records, length);
      if |first| <= length {
        WholeRecordsEnd(crc, p + |first|, records[1..], length - |first|);
        assert records[..k][1..] == records[1..][..k - 1];
        if k < |records| {
          assert records[..k + 1][1..] == records[1..][..k];
        }
      } else {
        assert records[..1][1..] == [];
      }
    }
  }

  /** Reading back any list of appended records yields that list. */
  lemma LogRoundTrip(crc: Checksum, records: seq<Bytes>)
    ensures ReadAll(crc, Written(crc, 0, records), 0) == (records, [])
  {
    hide Emit, ReadAll;
    var f := Written(crc, 0, records);
    assert f[0..] == f;
    CutLogRead(crc, f, 0, records);
    WholeRecordsEnd(crc, 0, records, |f|);
    var k := WholeRecords(crc, 0, records, |f|);
    if k < |records| {
      WrittenGrows(crc, 0, records, k + 1);
    }
    assert records[..|records|] == records;
  }

  lemma {:induction false} WrittenGrows(crc: Checksum, p: nat, records: seq<Bytes>, k: nat)
    requires k <= |records|
    ensures Written(crc, p, records[..k]) <= Written(crc, p, records)
    decreases |records|
  {
    hide Emit;
    if k > 0 {
      var first := Emit(crc, p, true, records[0]);
      WrittenGrows(crc, p + |first|, records[1..], k - 1);
      assert records[..k][1..] == records[1..][..k - 1];
    }
  }
}
