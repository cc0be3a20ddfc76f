/** The writer and the reader of log files as objects (db/log_writer.cc:34-108, db/log_reader.cc:56-271). */
module LogFiles {
  import opened ByteStrings
  import opened Coding
  import opened Checksums
  import opened LogFormat

  /** `dest` is the file; the reader and writer below are the ones used for logs and manifests, from offset 0. */
  class Writer {
    const crc: Checksum
    const typeCrc: seq<nat>
    var dest: Bytes
    var blockOffset: nat

    predicate Valid()
      reads this
    {
      && blockOffset <= BLOCK && |dest| % BLOCK == blockOffset % BLOCK
      && |typeCrc| == 5 && forall t :: 0 <= t < 5 ==> typeCrc[t] == crc.extend(0, [t])
    }

    constructor (crc: Checksum, dest: Bytes)
      ensures Valid() && this.dest == dest && this.crc == crc
    {
      this.crc := crc;
      this.dest := dest;
      blockOffset := |dest| % BLOCK;
      typeCrc := seq(5, t requires 0 <= t < 5 => crc.extend(0, [t]));
    }

    method EmitPhysicalRecord(t: Byte, data: Bytes)
      requires Valid() && t <= LAST_TYPE && blockOffset + HEADER + |data| <= BLOCK
      modifies this`dest, this`blockOffset
      ensures Valid() && blockOffset == old(blockOffset) + HEADER + |data|
      ensures dest == old(dest) + PhysicalRecord(crc, t, data)
    {
      hide Mask, LittleEndian, Lawful;
      var sum := crc.extend(typeCrc[t], data);
      SumInSteps(crc, t, data);
      var header := EncodeFixed32(Mask(sum)) + [|data| % 256, |data| / 256, t];
      AppendTwice(dest, header, data);
      dest := dest + header;
      dest := dest + data;
      blockOffset := blockOffset + HEADER + |data|;
    }

    /** AddRecord: fragments until nothing is left, and at least one. */
    method AddRecord(slice: Bytes)
      requires Valid()
      modifies this`dest, this`blockOffset
      ensures Valid() && dest == old(dest) + Emit(crc, |old(dest)|, true, slice)
    {
      hide Emit;
      var left, begin, more := slice, true, true;
      ghost var target := dest + Emit(crc, |dest|, true, slice);
      while more
        invariant Valid() && target == if more then dest + Emit(crc, |dest|, begin, left) else dest
        decreases more, |left|, Leftover(HeaderAt(|dest|)) == HEADER
      {
        left, more := AddFragment(begin, left);
        begin := false;
      }
    }

    /** One round of the loop in AddRecord. */
    method AddFragment(begin: bool, data: Bytes) returns (left: Bytes, more: bool)
      requires Valid()
      modifies this`dest, this`blockOffset
      ensures Valid() && more == (left != []) && left == data[FragmentLength(|old(dest)|, data)..]
      ensures old(dest) + Emit(crc, |old(dest)|, begin, data)
           == if more then dest + Emit(crc, |dest|, false, left) else dest
      ensures more ==> |left| < |data| || Leftover(HeaderAt(|old(dest)|)) == HEADER
      ensures more ==> Leftover(HeaderAt(|dest|)) == BLOCK
    {
      hide PhysicalRecord, Emit;
      ghost var p := |dest|;
      EmitUnfolds(crc, dest, begin, data);
      StartBlock();
      var avail := BLOCK - blockOffset - HEADER;
      var n := if |data| < avail then |data| else avail;
      assert n == FragmentLength(p, data);
      var end := |data| == n;
      var t := if begin && end then FULL_TYPE else if begin then FIRST_TYPE else if end then LAST_TYPE else MIDDLE_TYPE;
      EmitPhysicalRecord(t, data[..n]);
      left := data[n..];
      more := |left| > 0;
      if more {
        FragmentFillsBlock(p, data);
      } else {
        assert dest + [] == dest;
      }
    }

    /** Zero bytes up to the end of the block when no header fits any more. */
    method StartBlock()
      requires Valid()
      modifies this`dest, this`blockOffset
      ensures Valid() && blockOffset + HEADER <= BLOCK && BLOCK - blockOffset == Leftover(|dest|)
      ensures dest == old(dest) + Trailer(|old(dest)|) && |dest| == HeaderAt(|old(dest)|)
    {
      var leftover := BLOCK - blockOffset;
      if leftover < HEADER {
        if leftover > 0 {
          BlockEndAligned(|dest|);
          dest := dest + Zeros(leftover);
        }
        blockOffset := 0;
      }
    }
  }

  /** Extending the precomputed checksum of the type is summing type and payload together. */
  lemma SumInSteps(crc: Checksum, t: Byte, data: Bytes)
    ensures crc.extend(crc.extend(0, [t]), data) == crc.extend(0, [t] + data) < TWO_32
  {
    assert ExtendsInSteps(crc, 0, [t], data);
  }

  lemma AppendTwice(dest: Bytes, header: Bytes, data: Bytes)
    ensures dest + header + data == dest + (header + data)
  {
  }

  lemma EmitUnfolds(crc: Checksum, dest: Bytes, begin: bool, data: Bytes)
    ensures var p, n := |dest|, FragmentLength(|dest|, data);
      var record := PhysicalRecord(crc, FragmentType(begin, n == |data|), data[..n]);
      var after := dest + Trailer(p) + record;
      && |after| == HeaderAt(p) + HEADER + n
      && dest + Emit(crc, p, begin, data)
      == after + if n == |data| then [] else Emit(crc, |after|, false, data[n..])
  {
    hide PhysicalRecord;
  }

  class Reader {
    const crc: Checksum
    const file: Bytes
    var buffer: Bytes
    var eof: bool
    var endOfBuffer: nat
    var drops: seq<nat>

    /** The offset of the first byte not yet consumed. */
    function Position(): nat
      requires |buffer| <= endOfBuffer
      reads this
    {
      endOfBuffer - |buffer|
    }

    /** The buffer is the rest of one block, or of what the file has of its last block. */
    predicate Valid()
      reads this
    {
      && |buffer| <= endOfBuffer <= |file| && buffer == file[endOfBuffer - |buffer|..endOfBuffer]
      && (if eof then endOfBuffer == |file| && |buffer| <= |file| % BLOCK
          else endOfBuffer % BLOCK == 0 && |buffer| <= BLOCK)
    }

    constructor (crc: Checksum, file: Bytes)
      ensures Valid() && this.file == file && this.crc == crc && Position() == 0 && drops == []
    {
      this.crc := crc;
      this.file := file;
      buffer, eof, endOfBuffer, drops := [], false, 0, [];
    }

    /** Read the next block of the file; a short one is the last. */
    method FillBuffer()
      requires Valid() && !eof && |buffer| < HEADER
      modifies this`buffer, this`eof, this`endOfBuffer
      ensures Valid() && Position() == old(endOfBuffer)
      ensures eof || endOfBuffer == old(endOfBuffer) + BLOCK
    {
      var size := if endOfBuffer + BLOCK <= |file| then BLOCK else |file| - endOfBuffer;
      buffer := file[endOfBuffer..endOfBuffer + size];
      endOfBuffer := endOfBuffer + size;
      if |buffer| < BLOCK {
        eof := true;
      }
    }

    method ReadPhysicalRecord() returns (r: Physical)
      requires Valid()
      modifies this`buffer, this`eof, this`endOfBuffer, this`drops
      ensures Valid() && r == ReadPhysical(crc, file, old(Position()))
      ensures Position() == if r.Eof? then |file| else r.next
      ensures drops == if r.Bad? then old(drops) + r.drops else old(drops)
    {
      hide ReadPhysical, ParseHeader;
      ghost var p0 := Position();
      while |buffer| < HEADER
        invariant Valid() && drops == old(drops)
        invariant Position() <= |file| && ReadPhysical(crc, file, Position()) == ReadPhysical(crc, file, p0)
        decreases !eof, |file| - endOfBuffer
      {
        ShortBuffer(crc, file, Position(), endOfBuffer, eof);
        if eof {
          buffer := [];
          return Eof;
        }
        FillBuffer();
      }
      BufferEnd(crc, file, Position(), endOfBuffer, eof);
      r := ParseBuffer();
    }

    /** The part of ReadPhysicalRecord that parses and checks a header in the buffer. */
    method ParseBuffer() returns (r: Physical)
      requires Valid() && |buffer| >= HEADER
      modifies this`buffer, this`drops
      ensures Valid() && r == ParseHeader(crc, old(buffer), endOfBuffer, eof)
      ensures Position() == if r.Eof? then endOfBuffer else r.next
      ensures drops == if r.Bad? then old(drops) + r.drops else old(drops)
    {
      hide Stored, Unmask;
      var size := |buffer|;
      var length, t := buffer[4] as int + 256 * buffer[5] as int, buffer[6];
      if HEADER + length > size {
        buffer := [];
        if !eof {
          drops := drops + [size];
          return Bad(endOfBuffer, [size]);
        }
        return Eof;
      }
      if t == ZERO_TYPE && length == 0 {
        buffer := [];
        assert drops + [] == drops;
        return Bad(endOfBuffer, []);
      }
      if Unmask(Stored(buffer)) != crc.extend(0, buffer[6..HEADER + length]) {
        buffer := [];
        drops := drops + [size];
        return Bad(endOfBuffer, [size]);
      }
      var data := buffer[HEADER..HEADER + length];
      RestOfBuffer(file, buffer, endOfBuffer, HEADER + length);
      buffer := buffer[HEADER + length..];
      return Fragment(t, data, endOfBuffer - |buffer|);
    }

    /** ReadRecord: false at the end of the file. */
    method ReadRecord() returns (ok: bool, record: Bytes)
      requires Valid()
      modifies this`buffer, this`eof, this`endOfBuffer, this`drops
      ensures Valid()
      ensures var r := ReadLogical(crc, file, old(Position()), false, [], old(drops));
        ok == r.Record? && drops == r.drops && (ok ==> record == r.data && Position() == r.next)
    {
      hide ReadPhysical, Take;
      var scratch: Bytes, inFragmented := [], false;
      record := [];
      ghost var target := ReadLogical(crc, file, Position(), false, [], drops);
      while true
        invariant Valid() && (!inFragmented ==> scratch == [])
        invariant target == ReadLogical(crc, file, Position(), inFragmented, scratch, drops)
        decreases |file| - Position()
      {
        var r := ReadPhysicalRecord();
        match r {
          case Eof =>
            return false, [];
          case Bad(_, _) =>
            if inFragmented {
              drops := drops + [|scratch|];
              inFragmented, scratch := false, [];
            }
          case Fragment(t, fragment, _) =>
            var taken := TakeFragment(t, fragment, inFragmented, scratch);
            if taken.Whole? {
              return true, taken.record;
            }
            if taken.Ended? {
              return false, [];
            }
            inFragmented, scratch := taken.inFragmented, taken.scratch;
        }
      }
    }

    /** The switch over the record type in ReadRecord. */
    method TakeFragment(t: Byte, fragment: Bytes, inFragmented: bool, scratch: Bytes) returns (taken: Taken)
      requires !inFragmented ==> scratch == []
      modifies `drops
      ensures taken == Take(t, fragment, inFragmented, scratch, old(drops)) && drops == taken.drops
      ensures taken.GoOn? && !taken.inFragmented ==> taken.scratch == []
    {
      PartialIs(inFragmented, scratch, drops);
      hide Partial;
      if t == FULL_TYPE || t == FIRST_TYPE {
        if inFragmented && scratch != [] {
          drops := drops + [|scratch|];
        }
        taken := if t == FULL_TYPE then Whole(fragment, drops) else GoOn(true, fragment, drops);
      } else if t == MIDDLE_TYPE {
        if inFragmented {
          return GoOn(true, scratch + fragment, drops);
        }
        drops := drops + [|fragment|];
        taken := GoOn(false, [], drops);
      } else if t == LAST_TYPE {
        if inFragmented {
          return Whole(scratch + fragment, drops);
        }
        drops := drops + [|fragment|];
        taken := GoOn(false, [], drops);
      } else if t == EOF_TYPE {
        taken := Ended(drops);
      } else if t == BAD_RECORD_TYPE {
        if inFragmented {
          drops := drops + [|scratch|];
        }
        taken := GoOn(false, [], drops);
      } else {
        drops := drops + [|fragment| + if inFragmented then |scratch| else 0];
        taken := GoOn(false, [], drops);
      }
    }
  }

  lemma PartialIs(inFragmented: bool, scratch: Bytes, drops: seq<nat>)
    ensures drops + Partial(inFragmented, scratch)
         == if inFragmented && scratch != [] then drops + [|scratch|] else drops
  {
  }

  /** With less than a header in the buffer the reader is at a trailer, between blocks, or at the end. */
  lemma ShortBuffer(crc: Checksum, f: Bytes, p: nat, end: nat, eof: bool)
    requires p <= end <= |f| && end - p < HEADER
    requires if eof then end == |f| && end - p <= |f| % BLOCK else end % BLOCK == 0
    ensures ReadPhysical(crc, f, p) == if eof then Eof else ReadPhysical(crc, f, end)
  {
    hide ParseHeader;
  }

  /** A buffer with a header is what the reader of the format looks at. */
  lemma BufferEnd(crc: Checksum, f: Bytes, p: nat, end: nat, eof: bool)
    requires p + HEADER <= end <= |f|
    requires if eof then end == |f| && end - p <= |f| % BLOCK else end % BLOCK == 0 && end - p <= BLOCK
    ensures ReadPhysical(crc, f, p) == ParseHeader(crc, f[p..end], end, eof)
  {
    hide ParseHeader;
  }

  lemma RestOfBuffer(f: Bytes, buffer: Bytes, end: nat, n: nat)
    requires n <= |buffer| <= end <= |f| && buffer == f[end - |buffer|..end]
    ensures buffer[n..] == f[end - (|buffer| - n)..end]
  {
  }

  /** The loop over all records, as in RecoverLogFile and VersionSet::Recover. */
  method ReadLog(crc: Checksum, file: Bytes) returns (records: seq<Bytes>, drops: seq<nat>)
    ensures (records, drops) == ReadAll(crc, file, 0)
  {
    hide ReadLogical;
    var reader := new Reader(crc, file);
    records := [];
    var ok, record := true, [];
    ghost var all := ReadAll(crc, file, 0);
    assert [] + all.0 == all.0 && [] + all.1 == all.1;
    while ok
      invariant reader.Valid() && reader.crc == crc && reader.file == file && fresh(reader)
      invariant ok ==> Continued(all, records, reader.drops, ReadAll(crc, file, reader.Position()))
      invariant !ok ==> all == (records, reader.drops)
      decreases ok, |file| - reader.Position()
    {
      ghost var p, before := reader.Position(), reader.drops;
      DropsAddUp(crc, file, p, false, [], before, []);
      assert before + [] == before;
      ok, record := reader.ReadRecord();
      ContinueReading(crc, file, p, all, records, before);
      if ok {
        records := records + [record];
      }
    }
    drops := reader.drops;
  }

  /** What has been read so far, followed by what is still to come. */
  ghost predicate Continued(all: (seq<Bytes>, seq<nat>), records: seq<Bytes>, drops: seq<nat>,
                            rest: (seq<Bytes>, seq<nat>))
  {
    all.0 == records + rest.0 && all.1 == drops + rest.1
  }

  lemma ContinueReading(crc: Checksum, f: Bytes, p: nat, all: (seq<Bytes>, seq<nat>), records: seq<Bytes>,
                        drops: seq<nat>)
    requires p <= |f| && Continued(all, records, drops, ReadAll(crc, f, p))
    ensures match ReadLogical(crc, f, p, false, [], [])
      case End(more) => all == (records, drops + more)
      case Record(data, next, more) => Continued(all, records + [data], drops + more, ReadAll(crc, f, next))
  {
    hide ReadLogical;
    match ReadLogical(crc, f, p, false, [], [])
    case End(more) =>
      assert records + [] == records;
    case Record(data, next, more) =>
      var rest := ReadAll(crc, f, next);
      assert records + ([data] + rest.0) == records + [data] + rest.0;
      assert drops + (more + rest.1) == drops + more + rest.1;
  }

  /** Reports accumulate; what has been reported before does not change what is read. */
  lemma {:induction false} DropsAddUp(crc: Checksum, f: Bytes, p: nat, inFragmented: bool, scratch: Bytes,
                                      before: seq<nat>, drops: seq<nat>)
    requires p <= |f|
    ensures var r := ReadLogical(crc, f, p, inFragmented, scratch, drops);
      ReadLogical(crc, f, p, inFragmented, scratch, before + drops) == r.(drops := before + r.drops)
    decreases |f| - p
  {
    hide ReadPhysical, Take;
    match ReadPhysical(crc, f, p)
    case Eof =>
    case Bad(next, more) =>
      var last := if inFragmented then drops + more + [|scratch|] else drops + more;
      assert before + drops + more + [|scratch|] == before + (drops + more + [|scratch|]);
      assert before + drops + more == before + (drops + more);
      DropsAddUp(crc, f, next, false, [], before, last);
    case Fragment(t, data, next) =>
      TakenDropsAddUp(t, data, inFragmented, scratch, before, drops);
      match Take(t, data, inFragmented, scratch, drops)
      case Whole(_, _) =>
      case Ended(_) =>
      case GoOn(partial, joined, more) =>
        DropsAddUp(crc, f, next, partial, joined, before, more);
  }

  lemma TakenDropsAddUp(t: Byte, data: Bytes, inFragmented: bool, scratch: Bytes, before: seq<nat>, drops: seq<nat>)
    ensures var r := Take(t, data, inFragmented, scratch, drops);
      Take(t, data, inFragmented, scratch, before + drops) == r.(drops := before + r.drops)
  {
    var partial := Partial(inFragmented, scratch);
    assert before + (drops + partial) == before + drops + partial;
    assert before + (drops + [|data|]) == before + drops + [|data|];
    assert before + (drops + [|scratch|]) == before + drops + [|scratch|];
    var lost := [|data| + if inFragmented then |scratch| else 0];
    assert before + (drops + lost) == before + drops + lost;
  }
}
