/**
 What the log reader returns is in the file: no record is made of bytes whose checksum does not match, and records are
 joined only from fragments of the right types in the right order (db/log_reader.cc:40-160, 190-268).
 */
module LogSound {
  import opened ByteStrings
  import opened Coding
  import opened Checksums
  import opened LogFormat

  /** A physical record and where its header starts. */
  datatype Piece = Piece(at: nat, typ: Byte, data: Bytes)

  function PieceEnd(x: Piece): nat {
    x.at + HEADER + |x.data|
  }

  /** The file holds the piece: checksum, length, type and payload as the writer stores them, within one block. */
  predicate HasPiece(crc: Checksum, f: Bytes, x: Piece) {
    && PieceEnd(x) <= |f| && |x.data| < 0x1_0000 && HEADER + |x.data| <= Leftover(x.at)
    && f[x.at..PieceEnd(x)] == PhysicalRecord(crc, x.typ, x.data)
  }

  // ----- fragments -----

  /** The four bytes in front of a header that passes the checksum test. */
  lemma ChecksumBytes(buffer: Bytes, sum: nat)
    requires HEADER <= |buffer| && Unmask(Stored(buffer)) == sum
    ensures sum < TWO_32 && buffer[..4] == EncodeFixed32(Mask(sum))
  {
    MaskUnmask(Stored(buffer));
    FromLittleEndianRoundTrip(buffer[..4]);
  }

  lemma LengthBytes(low: Byte, high: Byte, length: nat)
    requires length == low as int + 256 * high as int
    ensures length < 0x1_0000 && length % 256 == low && length / 256 == high
  {
  }

  /** A header that is accepted is what the writer would store in front of its payload. */
  lemma HeaderAccepted(crc: Checksum, buffer: Bytes, end: nat, eof: bool)
    requires HEADER <= |buffer| <= end && ParseHeader(crc, buffer, end, eof).Fragment?
    ensures var r := ParseHeader(crc, buffer, end, eof);
      && |r.data| < 0x1_0000 && HEADER + |r.data| <= |buffer| && r.next == end - |buffer| + HEADER + |r.data|
      && buffer[..HEADER + |r.data|] == PhysicalRecord(crc, r.typ, r.data)
  {
    hide Unmask, Mask;
    var length := buffer[4] as int + 256 * buffer[5] as int;
    LengthBytes(buffer[4], buffer[5], length);
    var data := buffer[HEADER..HEADER + length];
    assert buffer[6..HEADER + length] == [buffer[6]] + data;
    ChecksumBytes(buffer, crc.extend(0, [buffer[6]] + data));
    assert buffer[..HEADER + length] == buffer[..4] + [buffer[4], buffer[5], buffer[6]] + data;
  }

  /** The block read from offset `p` to `end`. */
  lemma BlockAccepted(crc: Checksum, f: Bytes, p: nat, end: nat, eof: bool)
    requires p + HEADER <= end <= |f| && end <= p + Leftover(p)
    requires ParseHeader(crc, f[p..end], end, eof).Fragment?
    ensures var r := ParseHeader(crc, f[p..end], end, eof);
      HasPiece(crc, f, Piece(p, r.typ, r.data)) && r.next == p + HEADER + |r.data|
  {
    hide ParseHeader, PhysicalRecord;
    HeaderAccepted(crc, f[p..end], end, eof);
    var n := HEADER + |ParseHeader(crc, f[p..end], end, eof).data|;
    assert f[p..end][..n] == f[p..p + n];
  }

  /** A fragment that the reader accepts is stored where the reader stands or behind the trailer there. */
  lemma {:induction false} FragmentIsStored(crc: Checksum, f: Bytes, p: nat)
    requires p <= |f| && ReadPhysical(crc, f, p).Fragment?
    ensures var r := ReadPhysical(crc, f, p);
      && HasPiece(crc, f, Piece(HeaderAt(p), r.typ, r.data))
      && r.next == HeaderAt(p) + HEADER + |r.data|
  {
    hide ParseHeader, HasPiece;
    var q := HeaderAt(p);
    TrailerRead(crc, f, p);
    var end := if q + Leftover(q) <= |f| then q + Leftover(q) else |f|;
    BlockAccepted(crc, f, q, end, q + Leftover(q) > |f|);
  }

  lemma StoredChecksum(crc: Checksum, f: Bytes, x: Piece)
    requires HasPiece(crc, f, x)
    ensures var header, n := f[x.at..], HEADER + |x.data|;
      && header[4] as int + 256 * header[5] as int == |x.data|
      && Unmask(Stored(header)) == crc.extend(0, header[6..n])
  {
    var header, s := f[x.at..], PhysicalRecord(crc, x.typ, x.data);
    assert header[..|s|] == s && header[..HEADER] == s[..HEADER];
    HeaderRead(crc, header, x.typ, x.data);
    assert s[6..] == [x.typ] + x.data && header[6..|s|] == header[..|s|][6..];
  }

  /** A stored checksum that does not match its type and payload never yields a fragment. */
  lemma BadChecksumIsRefused(crc: Checksum, f: Bytes, p: nat)
    requires p <= |f| && HeaderAt(p) + HEADER <= |f|
    requires var header := f[HeaderAt(p)..];
      var n := HEADER + header[4] as int + 256 * header[5] as int;
      n <= |header| ==> Unmask(Stored(header)) != crc.extend(0, header[6..n])
    ensures !ReadPhysical(crc, f, p).Fragment?
  {
    hide ReadPhysical, HasPiece;
    var r := ReadPhysical(crc, f, p);
    if r.Fragment? {
      FragmentIsStored(crc, f, p);
      StoredChecksum(crc, f, Piece(HeaderAt(p), r.typ, r.data));
    }
  }

  // ----- records -----

  function Joined(pieces: seq<Piece>): Bytes {
    if pieces == [] then [] else Joined(pieces[..|pieces| - 1]) + pieces[|pieces| - 1].data
  }

  /** One piece behind the other, from offset `p` to `end`. */
  predicate InFile(crc: Checksum, f: Bytes, p: nat, pieces: seq<Piece>, end: nat) {
    if pieces == [] then p <= end
    else
      var last := pieces[|pieces| - 1];
      HasPiece(crc, f, last) && PieceEnd(last) <= end && InFile(crc, f, p, pieces[..|pieces| - 1], last.at)
  }

  /** The beginning of a record in fragments. */
  predicate Started(pieces: seq<Piece>) {
    pieces != [] && pieces[0].typ == FIRST_TYPE && forall i :: 0 < i < |pieces| ==> pieces[i].typ == MIDDLE_TYPE
  }

  /** A full fragment, or a first one, any number of middle ones and a last one. */
  predicate Complete(pieces: seq<Piece>) {
    pieces != [] &&
    var n := |pieces| - 1;
    if n == 0 then pieces[0].typ == FULL_TYPE else Started(pieces[..n]) && pieces[n].typ == LAST_TYPE
  }

  /** The file holds the record between the two offsets. */
  ghost predicate Holds(crc: Checksum, f: Bytes, p: nat, record: Bytes, end: nat) {
    exists pieces :: InFile(crc, f, p, pieces, end) && Complete(pieces) && Joined(pieces) == record
  }

  /** What the reader has gathered when it stands at offset `p`. */
  predicate Gathered(crc: Checksum, f: Bytes, start: nat, p: nat, pieces: seq<Piece>, inFragmented: bool,
                     scratch: Bytes) {
    start <= p && (inFragmented ==> Started(pieces) && InFile(crc, f, start, pieces, p) && Joined(pieces) == scratch)
  }

  lemma OnePiece(crc: Checksum, f: Bytes, p: nat, x: Piece)
    requires HasPiece(crc, f, x) && p <= x.at
    ensures InFile(crc, f, p, [x], PieceEnd(x)) && Joined([x]) == x.data
  {
    assert [x][..0] == [];
    assert InFile(crc, f, p, [], x.at);
  }

  lemma OnePieceMore(crc: Checksum, f: Bytes, p: nat, pieces: seq<Piece>, end: nat, x: Piece)
    requires InFile(crc, f, p, pieces, end) && HasPiece(crc, f, x) && end <= x.at
    ensures InFile(crc, f, p, pieces + [x], PieceEnd(x)) && Joined(pieces + [x]) == Joined(pieces) + x.data
  {
    assert (pieces + [x])[..|pieces|] == pieces;
    assert InFile(crc, f, p, pieces, x.at);
  }

  /** A record that the reader returns is stored, in pieces, between where it started and where it stopped. */
  lemma {:induction false} RecordIsStored(crc: Checksum, f: Bytes, start: nat, p: nat, pieces: seq<Piece>,
                                          inFragmented: bool, scratch: Bytes, drops: seq<nat>)
    requires p <= |f| && Gathered(crc, f, start, p, pieces, inFragmented, scratch)
    requires ReadLogical(crc, f, p, inFragmented, scratch, drops).Record?
    ensures var r := ReadLogical(crc, f, p, inFragmented, scratch, drops); Holds(crc, f, start, r.data, r.next)
    decreases |f| - p
  {
    hide ReadPhysical, HasPiece, InFile, Holds;
    match ReadPhysical(crc, f, p)
    case Bad(next, more) =>
      RecordIsStored(crc, f, start, next, [], false, [],
                     if inFragmented then drops + more + [|scratch|] else drops + more);
    case Fragment(t, data, next) =>
      FragmentIsStored(crc, f, p);
      var x := Piece(HeaderAt(p), t, data);
      OnePiece(crc, f, start, x);
      if inFragmented {
        OnePieceMore(crc, f, start, pieces, p, x);
      }
      match Take(t, data, inFragmented, scratch, drops)
      case Whole(record, _) => WholeIsHeld(crc, f, start, pieces, x, inFragmented, scratch);
      case GoOn(partial, joined, more) =>
        RecordIsStored(crc, f, start, next, if t == FIRST_TYPE then [x] else pieces + [x], partial, joined, more);
  }

  lemma WholeIsHeld(crc: Checksum, f: Bytes, start: nat, pieces: seq<Piece>, x: Piece, inFragmented: bool,
                    scratch: Bytes)
    requires InFile(crc, f, start, [x], PieceEnd(x)) && Joined([x]) == x.data
    requires inFragmented ==> Started(pieces) && InFile(crc, f, start, pieces + [x], PieceEnd(x)) &&
                              Joined(pieces + [x]) == scratch + x.data
    requires x.typ == FULL_TYPE || (x.typ == LAST_TYPE && inFragmented)
    ensures Holds(crc, f, start, if x.typ == FULL_TYPE then x.data else scratch + x.data, PieceEnd(x))
  {
    hide InFile;
    if x.typ == FULL_TYPE {
      assert Complete([x]);
    } else {
      assert (pieces + [x])[..|pieces|] == pieces;
      assert Complete(pieces + [x]);
    }
  }

  /** The records one after the other, each held by the file behind the one before. */
  ghost predicate HoldsAll(crc: Checksum, f: Bytes, p: nat, records: seq<Bytes>)
    decreases |records|
  {
    records == [] ||
    exists next: nat :: Holds(crc, f, p, records[0], next) && HoldsAll(crc, f, next, records[1..])
  }

  /** Whatever the file holds, the reader returns only records stored in it, in the order of the file. */
  lemma {:induction false} ReadsOnlyWhatIsStored(crc: Checksum, f: Bytes, p: nat)
    requires p <= |f|
    ensures HoldsAll(crc, f, p, ReadAll(crc, f, p).0)
    decreases |f| - p
  {
    hide ReadLogical, Holds;
    match ReadLogical(crc, f, p, false, [], [])
    case End(_) =>
    case Record(data, next, drops) =>
      RecordIsStored(crc, f, p, p, [], false, [], []);
      ReadsOnlyWhatIsStored(crc, f, next);
      var records := ReadAll(crc, f, p).0;
      assert records[1..] == ReadAll(crc, f, next).0;
      assert Holds(crc, f, p, records[0], next);
  }
}
