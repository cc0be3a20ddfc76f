/** The serialized form of write batches: db/write_batch.cc. */
module WriteBatchCodec {
  import opened ByteStrings
  import opened Coding

  const HEADER_SIZE: nat := 12
  const TYPE_DELETION: Byte := 0
  const TYPE_VALUE: Byte := 1

  datatype Operation = Delete(key: Bytes) | Put(key: Bytes, value: Bytes)

  /** Lengths are stored in 32 bits. */
  predicate Storable(op: Operation) {
    |op.key| < TWO_32 && (op.Put? ==> |op.value| < TWO_32)
  }

  predicate AllStorable(ops: seq<Operation>) {
    forall op :: op in ops ==> Storable(op)
  }

  lemma StorableConcat(xs: seq<Operation>, ys: seq<Operation>)
    requires AllStorable(xs) && AllStorable(ys)
    ensures AllStorable(xs + ys)
  {
  }

  function Record(op: Operation): (s: Bytes)
    ensures |s| > 0
  {
    match op
    case Delete(key) => [TYPE_DELETION] + PutLengthPrefixed(key)
    case Put(key, value) => [TYPE_VALUE] + PutLengthPrefixed(key) + PutLengthPrefixed(value)
  }

  function Records(ops: seq<Operation>): Bytes {
    if ops == [] then [] else Records(ops[..|ops| - 1]) + Record(ops[|ops| - 1])
  }

  lemma {:induction false} RecordsConcat(xs: seq<Operation>, ys: seq<Operation>)
    ensures Records(xs + ys) == Records(xs) + Records(ys)
    decreases |ys|
  {
    hide Record;
    if ys == [] {
      assert xs + ys == xs;
    } else {
      var front, last := ys[..|ys| - 1], Record(ys[|ys| - 1]);
      assert (xs + ys)[..|xs + ys| - 1] == xs + front;
      RecordsConcat(xs, front);
      assert Records(xs) + (Records(front) + last) == Records(xs) + Records(front) + last;
    }
  }

  /** One record: tag, key and, for a put, value. */
  function ParseRecord(input: Bytes): (r: Parsed<Operation>)
    requires input != []
    ensures r.Parsed? ==> |r.rest| < |input|
  {
    if input[0] == TYPE_VALUE then
      match GetPrefixed(input[1..])
      case Failed => Failed
      case Parsed(key, rest) =>
        match GetPrefixed(rest)
        case Failed => Failed
        case Parsed(value, rest') => Parsed(Put(key, value), rest')
    else if input[0] == TYPE_DELETION then
      match GetPrefixed(input[1..])
      case Failed => Failed
      case Parsed(key, rest) => Parsed(Delete(key), rest)
    else Failed
  }

  /** GetLengthPrefixedSlice, which consumes what it returns. */
  function GetPrefixed(s: Bytes): (r: Parsed<Bytes>)
    ensures r == GetLengthPrefixed(s) && (r.Parsed? ==> |r.rest| <= |s|)
  {
    VarintConsumes(s, 5);
    GetLengthPrefixed(s)
  }

  /** All records: the operations a handler sees, and whether the input ended after a whole record. */
  function ParseRecords(input: Bytes): (seq<Operation>, bool)
    decreases |input|
  {
    if input == [] then ([], true)
    else
      match ParseRecord(input)
      case Failed => ([], false)
      case Parsed(op, rest) =>
        var (ops, ok) := ParseRecords(rest);
        ([op] + ops, ok)
  }

  lemma RecordRoundTrip(op: Operation, rest: Bytes)
    requires Storable(op)
    ensures ParseRecord(Record(op) + rest) == Parsed(op, rest)
  {
    hide GetLengthPrefixed, PutLengthPrefixed;
    var s := Record(op) + rest;
    match op
    case Delete(key) =>
      assert s[1..] == PutLengthPrefixed(key) + rest;
      LengthPrefixedRoundTrip(key, rest);
    case Put(key, value) =>
      assert s[1..] == PutLengthPrefixed(key) + (PutLengthPrefixed(value) + rest);
      LengthPrefixedRoundTrip(key, PutLengthPrefixed(value) + rest);
      LengthPrefixedRoundTrip(value, rest);
  }

  /** A handler sees exactly the operations that were added, in order. */
  lemma {:induction false} RecordsRoundTrip(ops: seq<Operation>)
    requires AllStorable(ops)
    ensures ParseRecords(Records(ops)) == (ops, true)
  {
    if ops != [] {
      var first, rest := ops[0], ops[1..];
      OneRecord(first);
      hide ParseRecord, Record;
      assert ops == [first] + rest;
      RecordsConcat([first], rest);
      RecordRoundTrip(first, Records(rest));
      RecordsRoundTrip(rest);
      assert Records(ops) == Record(first) + Records(rest);
    }
  }

  function Rep(sequence: nat, ops: seq<Operation>): Bytes
    requires sequence < TWO_64 && |ops| < TWO_32
  {
    EncodeFixed64(sequence) + EncodeFixed32(|ops|) + Records(ops)
  }

  /** The sequence number, the operations and their count are read back from the bytes. */
  lemma RepRoundTrip(sequence: nat, ops: seq<Operation>)
    requires sequence < TWO_64 && |ops| < TWO_32
    ensures var rep := Rep(sequence, ops);
      && |rep| >= HEADER_SIZE && DecodeFixed64(rep) == sequence && DecodeFixed32(rep[8..]) == |ops|
      && rep[HEADER_SIZE..] == Records(ops)
  {
    hide EncodeFixed32, EncodeFixed64, DecodeFixed32, DecodeFixed64;
    Headers(sequence, ops);
    var rep := Rep(sequence, ops);
    hide Rep;
    assert rep == EncodeFixed64(sequence) + rep[8..];
    Fixed64RoundTrip(sequence, rep[8..]);
    Fixed32RoundTrip(|ops|, Records(ops));
  }

  datatype Status = Ok | Corruption

  class WriteBatch {
    var rep: Bytes
    ghost var sequence: nat
    ghost var ops: seq<Operation>

    ghost predicate Valid()
      reads this
    {
      sequence < TWO_64 && |ops| < TWO_32 && rep == Rep(sequence, ops) && AllStorable(ops)
    }

    constructor ()
      ensures Valid() && ops == [] && sequence == 0
    {
      rep, sequence, ops := seq(HEADER_SIZE, i => 0), 0, [];
      new;
      ZeroHeader();
    }

    method Count() returns (n: nat)
      requires Valid()
      ensures n == |ops|
    {
      RepRoundTrip(sequence, ops);
      n := DecodeFixed32(rep[8..]);
    }

    method Sequence() returns (s: nat)
      requires Valid()
      ensures s == sequence
    {
      RepRoundTrip(sequence, ops);
      s := DecodeFixed64(rep);
    }

    method SetSequence(s: nat)
      requires Valid() && s < TWO_64
      modifies this
      ensures Valid() && sequence == s && ops == old(ops)
    {
      RepRoundTrip(sequence, ops);
      Headers(sequence, ops);
      rep := EncodeFixed64(s) + rep[8..];
      sequence := s;
    }

    /** Count up in the header and append the record. */
    method Add(op: Operation)
      requires Valid() && Storable(op) && |ops| + 1 < TWO_32
      modifies this
      ensures Valid() && ops == old(ops) + [op] && sequence == old(sequence)
    {
      hide Record, Rep, Assemble;
      var n := Count();
      OneRecord(op);
      AppendedRep(sequence, n + 1, ops, [op], Record(op));
      Patch(n + 1, Record(op));
      ops := ops + [op];
    }

    method PutKey(key: Bytes, value: Bytes)
      requires Valid() && |key| < TWO_32 && |value| < TWO_32 && |ops| + 1 < TWO_32
      modifies this
      ensures Valid() && ops == old(ops) + [Put(key, value)] && sequence == old(sequence)
    {
      Add(Put(key, value));
    }

    method DeleteKey(key: Bytes)
      requires Valid() && |key| < TWO_32 && |ops| + 1 < TWO_32
      modifies this
      ensures Valid() && ops == old(ops) + [Delete(key)] && sequence == old(sequence)
    {
      Add(Delete(key));
    }

    /** Append the records of another batch; its sequence number is dropped. */
    method Append(src: WriteBatch)
      requires Valid() && src.Valid() && |ops| + |src.ops| < TWO_32
      modifies this
      ensures Valid() && ops == old(ops) + old(src.ops) && sequence == old(sequence)
    {
      var n := Count();
      var m := src.Count();
      hide Rep, Assemble, Records, AllStorable;
      StorableConcat(ops, src.ops);
      var body := src.Body();
      ghost var all := ops + src.ops;
      var count := n + m;
      AppendedRep(sequence, count, ops, src.ops, body);
      Patch(count, body);
      ops := all;
    }

    /** The records behind the header. */
    method Body() returns (body: Bytes)
      requires Valid()
      ensures body == Records(ops)
    {
      hide EncodeFixed32, EncodeFixed64, Records;
      Headers(sequence, ops);
      body := rep[HEADER_SIZE..];
    }

    /** Store a new count in the header and append some records. */
    method Patch(count: nat, more: Bytes)
      requires Valid() && count < TWO_32
      modifies this`rep
      ensures rep == Assemble(sequence, count, Records(ops), more)
    {
      hide Rep, EncodeFixed32, EncodeFixed64, Records;
      Headers(sequence, ops);
      rep := rep[..8] + EncodeFixed32(count) + rep[HEADER_SIZE..] + more;
    }

    /** The bytes of a logged batch, whatever they are. */
    method SetContents(contents: Bytes)
      requires |contents| >= HEADER_SIZE
      modifies this`rep
      ensures rep == contents
    {
      rep := contents;
    }

    /**
     Iterate: what the handler is called with before the end or the first bad record, and whether the batch is well
     formed, on any bytes.
     */
    method Iterate() returns (status: Status, seen: seq<Operation>)
      ensures |rep| < HEADER_SIZE ==> status == Corruption && seen == []
      ensures |rep| >= HEADER_SIZE ==> seen == ParseRecords(rep[HEADER_SIZE..]).0
      ensures |rep| >= HEADER_SIZE ==>
        (status == Ok <==> ParseRecords(rep[HEADER_SIZE..]).1 && |seen| == DecodeFixed32(rep[8..]))
      ensures Valid() ==> status == Ok && seen == ops
    {
      hide ParseRecord, DecodeFixed32;
      if |rep| < HEADER_SIZE {
        TooSmall();
        return Corruption, [];
      }
      WellFormed();
      var input := rep[HEADER_SIZE..];
      seen := [];
      while input != []
        invariant ParseRecords(input).1 == ParseRecords(rep[HEADER_SIZE..]).1
        invariant seen + ParseRecords(input).0 == ParseRecords(rep[HEADER_SIZE..]).0
        decreases |input|
      {
        var r := ParseRecord(input);
        if r.Failed? {
          assert seen + [] == seen;
          return Corruption, seen;
        }
        seen := seen + [r.value];
        input := r.rest;
      }
      assert seen + [] == seen;
      var n := DecodeFixed32(rep[8..]);
      status := if |seen| == n then Ok else Corruption;
    }

    lemma TooSmall()
      requires |rep| < HEADER_SIZE
      ensures !Valid()
    {
    }

    lemma WellFormed()
      ensures Valid() ==> |rep| >= HEADER_SIZE && ParseRecords(rep[HEADER_SIZE..]) == (ops, true)
                          && DecodeFixed32(rep[8..]) == |ops| && DecodeFixed64(rep) == sequence
    {
      if Valid() {
        RepRoundTrip(sequence, ops);
        RecordsRoundTrip(ops);
      }
    }

    /** InsertInto: consecutive sequence numbers from that of the batch, up to the first bad record. */
    method InsertInto() returns (status: Status, added: seq<(nat, Operation)>)
      requires |rep| >= HEADER_SIZE
      ensures var (seen, whole) := ParseRecords(rep[HEADER_SIZE..]);
        && (status == Ok <==> whole && |seen| == DecodeFixed32(rep[8..]))
        && |added| == |seen| && forall i :: 0 <= i < |seen| ==> added[i] == (DecodeFixed64(rep) + i, seen[i])
      ensures Valid() ==> status == Ok && |added| == |ops|
      ensures Valid() ==> forall i :: 0 <= i < |ops| ==> added[i] == (sequence + i, ops[i])
    {
      hide DecodeFixed64, DecodeFixed32, ParseRecords, Valid;
      var seen: seq<Operation>;
      status, seen := Iterate();
      WellFormed();
      var next := DecodeFixed64(rep);
      added := [];
      for i := 0 to |seen|
        invariant next == DecodeFixed64(rep) + i && |added| == i
        invariant forall j :: 0 <= j < i ==> added[j] == (DecodeFixed64(rep) + j, seen[j])
      {
        added := added + [(next, seen[i])];
        next := next + 1;
      }
    }
  }

  // ----- batches cut short -----

  lemma {:induction false} CutVarint(v: nat, k: nat, n: nat)
    requires k < |EncodeVarint(v)|
    ensures Varint(EncodeVarint(v)[..k], n) == Failed
    decreases n
  {
    if n > 0 && k > 0 && v >= 128 {
      assert EncodeVarint(v)[..k][1..] == EncodeVarint(v / 128)[..k - 1];
      CutVarint(v / 128, k - 1, n - 1);
    }
  }

  lemma CutPrefixed(b: Bytes, k: nat)
    requires |b| < TWO_32 && k < |PutLengthPrefixed(b)|
    ensures GetLengthPrefixed(PutLengthPrefixed(b)[..k]) == Failed
  {
    hide Varint;
    var head := EncodeVarint(|b|);
    if k < |head| {
      assert PutLengthPrefixed(b)[..k] == head[..k];
      CutVarint(|b|, k, 5);
    } else {
      assert PutLengthPrefixed(b)[..k] == head + b[..k - |head|];
      Varint32RoundTrip(|b|, b[..k - |head|]);
    }
  }

  lemma CutRecord(op: Operation, k: nat)
    requires Storable(op) && 0 < k < |Record(op)|
    ensures ParseRecord(Record(op)[..k]) == Failed
  {
    hide GetLengthPrefixed, PutLengthPrefixed;
    var s := Record(op)[..k];
    match op
    case Delete(key) =>
      assert s[1..] == PutLengthPrefixed(key)[..k - 1];
      CutPrefixed(key, k - 1);
    case Put(key, value) =>
      var first, second := PutLengthPrefixed(key), PutLengthPrefixed(value);
      if k - 1 < |first| {
        assert s[1..] == first[..k - 1];
        CutPrefixed(key, k - 1);
      } else {
        assert s[1..] == first + second[..k - 1 - |first|];
        LengthPrefixedRoundTrip(key, second[..k - 1 - |first|]);
        CutPrefixed(value, k - 1 - |first|);
      }
  }

  /** Of records cut short the whole ones are seen, fewer than there were. */
  lemma {:induction false} CutRecords(ops: seq<Operation>, k: nat)
    requires AllStorable(ops) && k < |Records(ops)|
    ensures var seen := ParseRecords(Records(ops)[..k]).0; |seen| < |ops| && seen <= ops
  {
    hide Record, ParseRecord;
    var first, rest := ops[0], ops[1..];
    assert ops == [first] + rest;
    RecordsConcat([first], rest);
    OneRecord(first);
    var s, n := Records(ops)[..k], |Record(first)|;
    if k == 0 {
    } else if k < n {
      assert s == Record(first)[..k];
      CutRecord(first, k);
    } else {
      assert s == Record(first) + Records(rest)[..k - n];
      RecordRoundTrip(first, Records(rest)[..k - n]);
      CutRecords(rest, k - n);
    }
  }

  /** A batch of which the end is missing is never accepted, and the handler has seen only a prefix of it. */
  lemma CutBatchIsRefused(sequence: nat, ops: seq<Operation>, k: nat)
    requires sequence < TWO_64 && |ops| < TWO_32 && AllStorable(ops) && HEADER_SIZE <= k < |Rep(sequence, ops)|
    ensures var cut := Rep(sequence, ops)[..k];
      var seen := ParseRecords(cut[HEADER_SIZE..]).0;
      seen <= ops && |seen| != DecodeFixed32(cut[8..])
  {
    hide EncodeFixed32, EncodeFixed64, DecodeFixed32, Records, ParseRecords;
    var whole, cut := Rep(sequence, ops), Rep(sequence, ops)[..k];
    Headers(sequence, ops);
    assert cut[HEADER_SIZE..] == whole[HEADER_SIZE..][..k - HEADER_SIZE];
    CutRecords(ops, k - HEADER_SIZE);
    assert cut[8..] == EncodeFixed32(|ops|) + cut[HEADER_SIZE..];
    Fixed32RoundTrip(|ops|, cut[HEADER_SIZE..]);
  }

  /** A header, some records, and more records. */
  function Assemble(sequence: nat, count: nat, records: Bytes, more: Bytes): Bytes
    requires sequence < TWO_64 && count < TWO_32
  {
    EncodeFixed64(sequence) + EncodeFixed32(count) + records + more
  }

  lemma OneRecord(op: Operation)
    ensures Records([op]) == Record(op) && |Record(op)| > 0
  {
    assert [op][..0] == [];
  }

  lemma AppendedRep(sequence: nat, count: nat, ops: seq<Operation>, more: seq<Operation>, records: Bytes)
    requires sequence < TWO_64 && count == |ops| + |more| < TWO_32 && records == Records(more)
    ensures Assemble(sequence, count, Records(ops), records) == Rep(sequence, ops + more)
  {
    hide EncodeFixed32, EncodeFixed64, Records;
    RecordsConcat(ops, more);
    var all, head := ops + more, EncodeFixed64(sequence) + EncodeFixed32(count);
    assert |all| == count && Rep(sequence, all) == head + (Records(ops) + records);
    assert head + (Records(ops) + records) == head + Records(ops) + records;
  }

  lemma ZeroHeader()
    ensures seq(HEADER_SIZE, i => 0) == Rep(0, [])
  {
    assert EncodeFixed32(0) == [0] + LittleEndian(0, 3) && LittleEndian(0, 3) == [0] + LittleEndian(0, 2);
    assert LittleEndian(0, 2) == [0] + LittleEndian(0, 1) && LittleEndian(0, 1) == [0] + [];
    assert EncodeFixed64(0) == [0] + LittleEndian(0, 7) && LittleEndian(0, 7) == [0] + LittleEndian(0, 6);
    assert LittleEndian(0, 6) == [0] + LittleEndian(0, 5) && LittleEndian(0, 5) == [0] + LittleEndian(0, 4);
    assert Records([]) == [];
  }

  /** The two header fields and the records behind them. */
  lemma Headers(sequence: nat, ops: seq<Operation>)
    requires sequence < TWO_64 && |ops| < TWO_32
    ensures var rep := Rep(sequence, ops);
      && |rep| >= HEADER_SIZE && rep[..8] == EncodeFixed64(sequence) && rep[HEADER_SIZE..] == Records(ops)
      && rep[8..] == EncodeFixed32(|ops|) + Records(ops)
  {
    hide EncodeFixed32, EncodeFixed64, Records;
  }
}
