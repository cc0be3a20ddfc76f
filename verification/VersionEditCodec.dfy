/** The serialized form of manifest edits: db/version_edit.cc. */
module VersionEditCodec {
  import opened Options
  import opened ByteStrings
  import opened Coding
  import Versions

  const COMPARATOR: nat := 1
  const LOG_NUMBER: nat := 2
  const NEXT_FILE_NUMBER: nat := 3
  const LAST_SEQUENCE: nat := 4
  const COMPACT_KEY: nat := 5
  const DELETED_FILE: nat := 6
  const NEW_FILE: nat := 7
  const PREV_LOG_NUMBER: nat := 9

  datatype FileMeta = FileMeta(number: nat, size: nat, smallest: Bytes, largest: Bytes)

  /** `deleted` lists a set in increasing order of level and number, as iterating it does. */
  datatype VersionEdit = VersionEdit(comparator: Option<Bytes>, logNumber: Option<nat>, prevLogNumber: Option<nat>,
                                     nextFile: Option<nat>, lastSequence: Option<nat>,
                                     compactPointers: seq<(nat, Bytes)>, deleted: seq<(nat, nat)>,
                                     newFiles: seq<(nat, FileMeta)>)

  /** One tagged field of the serialized edit. */
  datatype Field =
    | Comparator(name: Bytes)
    | LogNumber(log: nat)
    | PrevLogNumber(prevLog: nat)
    | NextFile(next: nat)
    | LastSequence(sequence: nat)
    | CompactPointer(pointer: (nat, Bytes))
    | DeletedFile(file: (nat, nat))
    | NewFile(level: nat, meta: FileMeta)

  predicate Smaller(a: (nat, nat), b: (nat, nat)) {
    a.0 < b.0 || (a.0 == b.0 && a.1 < b.1)
  }

  /** Inserting into the set of deleted files. */
  function InsertFile(files: seq<(nat, nat)>, f: (nat, nat)): seq<(nat, nat)> {
    if files == [] then [f]
    else
      var last := files[|files| - 1];
      if last == f then files
      else if Smaller(last, f) then files + [f]
      else InsertFile(files[..|files| - 1], f) + [last]
  }

  /** What decoding a field does to the edit. */
  function Apply(e: VersionEdit, f: Field): VersionEdit {
    match f
    case Comparator(name) => e.(comparator := Some(name))
    case LogNumber(n) => e.(logNumber := Some(n))
    case PrevLogNumber(n) => e.(prevLogNumber := Some(n))
    case NextFile(n) => e.(nextFile := Some(n))
    case LastSequence(n) => e.(lastSequence := Some(n))
    case CompactPointer(p) => e.(compactPointers := e.compactPointers + [p])
    case DeletedFile(file) => e.(deleted := InsertFile(e.deleted, file))
    case NewFile(level, meta) => e.(newFiles := e.newFiles + [(level, meta)])
  }

  function EncodeField(f: Field): (s: Bytes)
    ensures |s| > 0
  {
    match f
    case Comparator(name) => EncodeVarint(COMPARATOR) + PutLengthPrefixed(name)
    case LogNumber(n) => EncodeVarint(LOG_NUMBER) + EncodeVarint(n)
    case PrevLogNumber(n) => EncodeVarint(PREV_LOG_NUMBER) + EncodeVarint(n)
    case NextFile(n) => EncodeVarint(NEXT_FILE_NUMBER) + EncodeVarint(n)
    case LastSequence(n) => EncodeVarint(LAST_SEQUENCE) + EncodeVarint(n)
    case CompactPointer(p) => EncodeVarint(COMPACT_KEY) + (EncodeVarint(p.0) + PutLengthPrefixed(p.1))
    case DeletedFile(d) => EncodeVarint(DELETED_FILE) + (EncodeVarint(d.0) + EncodeVarint(d.1))
    case NewFile(level, m) => EncodeVarint(NEW_FILE) + (EncodeVarint(level) + EncodeMeta(m))
  }

  function EncodeMeta(m: FileMeta): Bytes {
    EncodeVarint(m.number) + (EncodeVarint(m.size) + (PutLengthPrefixed(m.smallest) + PutLengthPrefixed(m.largest)))
  }

  /** Values that fit the widths of their encoding, at levels that exist. */
  predicate FieldFits(f: Field) {
    match f
    case Comparator(name) => |name| < TWO_32
    case LogNumber(n) => n < TWO_64
    case PrevLogNumber(n) => n < TWO_64
    case NextFile(n) => n < TWO_64
    case LastSequence(n) => n < TWO_64
    case CompactPointer(p) => p.0 < Versions.NUM_LEVELS && |p.1| < TWO_32
    case DeletedFile(d) => d.0 < Versions.NUM_LEVELS && d.1 < TWO_64
    case NewFile(level, m) => level < Versions.NUM_LEVELS && MetaFits(m)
  }

  predicate MetaFits(m: FileMeta) {
    m.number < TWO_64 && m.size < TWO_64 && |m.smallest| < TWO_32 && |m.largest| < TWO_32
  }

  /** GetLevel. */
  function GetLevel(s: Bytes): Parsed<nat> {
    match GetVarint32(s)
    case Failed => Failed
    case Parsed(v, rest) => if v < Versions.NUM_LEVELS then Parsed(v, rest) else Failed
  }

  function GetMeta(s: Bytes): Parsed<FileMeta> {
    match GetVarint64(s)
    case Failed => Failed
    case Parsed(number, s1) =>
      match GetVarint64(s1)
      case Failed => Failed
      case Parsed(size, s2) =>
        match GetLengthPrefixed(s2)
        case Failed => Failed
        case Parsed(smallest, s3) =>
          match GetLengthPrefixed(s3)
          case Failed => Failed
          case Parsed(largest, s4) => Parsed(FileMeta(number, size, smallest, largest), s4)
  }

  /** The body of a field behind its tag. */
  function GetField(tag: nat, s: Bytes): Parsed<Field> {
    if tag == COMPARATOR then
      match GetLengthPrefixed(s)
      case Failed => Failed
      case Parsed(name, rest) => Parsed(Comparator(name), rest)
    else if tag == LOG_NUMBER then
      match GetVarint64(s)
      case Failed => Failed
      case Parsed(n, rest) => Parsed(LogNumber(n), rest)
    else if tag == PREV_LOG_NUMBER then
      match GetVarint64(s)
      case Failed => Failed
      case Parsed(n, rest) => Parsed(PrevLogNumber(n), rest)
    else if tag == NEXT_FILE_NUMBER then
      match GetVarint64(s)
      case Failed => Failed
      case Parsed(n, rest) => Parsed(NextFile(n), rest)
    else if tag == LAST_SEQUENCE then
      match GetVarint64(s)
      case Failed => Failed
      case Parsed(n, rest) => Parsed(LastSequence(n), rest)
    else if tag == COMPACT_KEY then
      match GetLevel(s)
      case Failed => Failed
      case Parsed(level, s1) =>
        match GetLengthPrefixed(s1)
        case Failed => Failed
        case Parsed(key, rest) => Parsed(CompactPointer((level, key)), rest)
    else if tag == DELETED_FILE then
      match GetLevel(s)
      case Failed => Failed
      case Parsed(level, s1) =>
        match GetVarint64(s1)
        case Failed => Failed
        case Parsed(number, rest) => Parsed(DeletedFile((level, number)), rest)
    else if tag == NEW_FILE then
      match GetLevel(s)
      case Failed => Failed
      case Parsed(level, s1) =>
        match GetMeta(s1)
        case Failed => Failed
        case Parsed(meta, rest) => Parsed(NewFile(level, meta), rest)
    else Failed
  }

  lemma LevelRoundTrip(level: nat, rest: Bytes)
    requires level < Versions.NUM_LEVELS
    ensures GetLevel(EncodeVarint(level) + rest) == Parsed(level, rest)
  {
    hide GetVarint32;
    Varint32RoundTrip(level, rest);
  }

  lemma MetaRoundTrip(m: FileMeta, rest: Bytes)
    requires MetaFits(m)
    ensures GetMeta(EncodeMeta(m) + rest) == Parsed(m, rest)
  {
    hide GetVarint64, GetLengthPrefixed, PutLengthPrefixed, EncodeVarint;
    var d := PutLengthPrefixed(m.largest) + rest;
    var c := PutLengthPrefixed(m.smallest) + d;
    var b := EncodeVarint(m.size) + c;
    assert EncodeMeta(m) + rest == EncodeVarint(m.number) + b;
    Varint64RoundTrip(m.number, b);
    Varint64RoundTrip(m.size, c);
    LengthPrefixedRoundTrip(m.smallest, d);
    LengthPrefixedRoundTrip(m.largest, rest);
  }

  function TagOf(f: Field): (tag: nat)
    ensures tag < 10
  {
    match f
    case Comparator(_) => COMPARATOR
    case LogNumber(_) => LOG_NUMBER
    case PrevLogNumber(_) => PREV_LOG_NUMBER
    case NextFile(_) => NEXT_FILE_NUMBER
    case LastSequence(_) => LAST_SEQUENCE
    case CompactPointer(_) => COMPACT_KEY
    case DeletedFile(_) => DELETED_FILE
    case NewFile(_, _) => NEW_FILE
  }

  function Body(f: Field): Bytes {
    match f
    case Comparator(name) => PutLengthPrefixed(name)
    case LogNumber(n) => EncodeVarint(n)
    case PrevLogNumber(n) => EncodeVarint(n)
    case NextFile(n) => EncodeVarint(n)
    case LastSequence(n) => EncodeVarint(n)
    case CompactPointer(p) => EncodeVarint(p.0) + PutLengthPrefixed(p.1)
    case DeletedFile(d) => EncodeVarint(d.0) + EncodeVarint(d.1)
    case NewFile(level, m) => EncodeVarint(level) + EncodeMeta(m)
  }

  lemma BodyRoundTrip(f: Field, rest: Bytes)
    requires FieldFits(f)
    ensures GetField(TagOf(f), Body(f) + rest) == Parsed(f, rest)
  {
    hide GetVarint64, GetLengthPrefixed, PutLengthPrefixed, EncodeVarint, GetMeta, EncodeMeta, GetLevel;
    match f
    case Comparator(name) => LengthPrefixedRoundTrip(name, rest);
    case LogNumber(n) => Varint64RoundTrip(n, rest);
    case PrevLogNumber(n) => Varint64RoundTrip(n, rest);
    case NextFile(n) => Varint64RoundTrip(n, rest);
    case LastSequence(n) => Varint64RoundTrip(n, rest);
    case CompactPointer(p) =>
      assert Body(f) + rest == EncodeVarint(p.0) + (PutLengthPrefixed(p.1) + rest);
      LevelRoundTrip(p.0, PutLengthPrefixed(p.1) + rest);
      LengthPrefixedRoundTrip(p.1, rest);
    case DeletedFile(d) =>
      assert Body(f) + rest == EncodeVarint(d.0) + (EncodeVarint(d.1) + rest);
      LevelRoundTrip(d.0, EncodeVarint(d.1) + rest);
      Varint64RoundTrip(d.1, rest);
    case NewFile(level, m) =>
      assert Body(f) + rest == EncodeVarint(level) + (EncodeMeta(m) + rest);
      LevelRoundTrip(level, EncodeMeta(m) + rest);
      MetaRoundTrip(m, rest);
  }

  /** The loop of DecodeFrom: fields until no tag can be read; None stands for a corruption status. */
  function DecodeFields(e: VersionEdit, input: Bytes): Option<VersionEdit>
    decreases |input|
  {
    match GetVarint32(input)
    case Failed => if input == [] then Some(e) else None
    case Parsed(tag, body) =>
      match GetField(tag, body)
      case Failed => None
      case Parsed(f, rest) =>
        FieldConsumes(input, tag, body);
        DecodeFields(Apply(e, f), rest)
  }

  lemma PrefixedShrinks(s: Bytes)
    ensures GetLengthPrefixed(s).Parsed? ==> |GetLengthPrefixed(s).rest| < |s|
  {
    VarintConsumes(s, 5);
  }

  lemma FieldConsumes(input: Bytes, tag: nat, body: Bytes)
    requires GetVarint32(input) == Parsed(tag, body)
    ensures GetField(tag, body).Parsed? ==> |GetField(tag, body).rest| < |input|
  {
    hide Varint;
    VarintConsumes(input, 5);
    VarintConsumes(body, 5);
    VarintConsumes(body, 10);
    PrefixedShrinks(body);
    if GetLevel(body).Parsed? {
      var s1 := GetLevel(body).rest;
      PrefixedShrinks(s1);
      VarintConsumes(s1, 10);
      MetaShrinks(s1);
    }
  }

  lemma MetaShrinks(s: Bytes)
    ensures GetMeta(s).Parsed? ==> |GetMeta(s).rest| < |s|
  {
    hide Varint;
    VarintConsumes(s, 10);
    if GetVarint64(s).Parsed? {
      var s1 := GetVarint64(s).rest;
      VarintConsumes(s1, 10);
      if GetVarint64(s1).Parsed? {
        var s2 := GetVarint64(s1).rest;
        PrefixedShrinks(s2);
        if GetLengthPrefixed(s2).Parsed? {
          PrefixedShrinks(GetLengthPrefixed(s2).rest);
        }
      }
    }
  }

  /** Decoding an encoded field applies it and goes on behind it. */
  lemma FieldRoundTrip(e: VersionEdit, f: Field, rest: Bytes)
    requires FieldFits(f)
    ensures DecodeFields(e, EncodeField(f) + rest) == DecodeFields(Apply(e, f), rest)
  {
    hide GetField, FieldFits, EncodeVarint, GetVarint32;
    assert EncodeField(f) == EncodeVarint(TagOf(f)) + Body(f);
    assert EncodeField(f) + rest == EncodeVarint(TagOf(f)) + (Body(f) + rest);
    Varint32RoundTrip(TagOf(f), Body(f) + rest);
    BodyRoundTrip(f, rest);
  }

  // ----- whole edits -----

  function One(o: Option<Field>): seq<Field> {
    if o.Some? then [o.value] else []
  }

  function NameField(e: VersionEdit): Option<Field> {
    if e.comparator.Some? then Some(Comparator(e.comparator.value)) else None
  }

  function LogField(e: VersionEdit): Option<Field> {
    if e.logNumber.Some? then Some(LogNumber(e.logNumber.value)) else None
  }

  function PrevLogField(e: VersionEdit): Option<Field> {
    if e.prevLogNumber.Some? then Some(PrevLogNumber(e.prevLogNumber.value)) else None
  }

  function NextField(e: VersionEdit): Option<Field> {
    if e.nextFile.Some? then Some(NextFile(e.nextFile.value)) else None
  }

  function LastField(e: VersionEdit): Option<Field> {
    if e.lastSequence.Some? then Some(LastSequence(e.lastSequence.value)) else None
  }

  /** The fields of an edit in the order of EncodeTo. */
  function Scalars(e: VersionEdit): seq<Field> {
    One(NameField(e)) + One(LogField(e)) + One(PrevLogField(e)) + One(NextField(e)) + One(LastField(e))
  }

  function PointerFields(ps: seq<(nat, Bytes)>): seq<Field> {
    seq(|ps|, i requires 0 <= i < |ps| => CompactPointer(ps[i]))
  }

  function DeletionFields(ds: seq<(nat, nat)>): seq<Field> {
    seq(|ds|, i requires 0 <= i < |ds| => DeletedFile(ds[i]))
  }

  function AdditionFields(ns: seq<(nat, FileMeta)>): seq<Field> {
    seq(|ns|, i requires 0 <= i < |ns| => NewFile(ns[i].0, ns[i].1))
  }

  function Fields(e: VersionEdit): seq<Field> {
    Scalars(e) + PointerFields(e.compactPointers) + DeletionFields(e.deleted) + AdditionFields(e.newFiles)
  }

  function EncodeFields(fs: seq<Field>): Bytes {
    if fs == [] then [] else EncodeFields(fs[..|fs| - 1]) + EncodeField(fs[|fs| - 1])
  }

  function ApplyAll(e: VersionEdit, fs: seq<Field>): VersionEdit {
    if fs == [] then e else Apply(ApplyAll(e, fs[..|fs| - 1]), fs[|fs| - 1])
  }

  predicate AllFit(fs: seq<Field>) {
    forall i :: 0 <= i < |fs| ==> FieldFits(fs[i])
  }

  lemma {:induction false} FieldsRoundTrip(e: VersionEdit, fs: seq<Field>, rest: Bytes)
    requires AllFit(fs)
    ensures DecodeFields(e, EncodeFields(fs) + rest) == DecodeFields(ApplyAll(e, fs), rest)
    decreases |fs|
  {
    hide FieldFits, EncodeField, DecodeFields, Apply;
    if fs == [] {
      assert [] + rest == rest;
    } else {
      var front, last := fs[..|fs| - 1], fs[|fs| - 1];
      assert EncodeFields(fs) + rest == EncodeFields(front) + (EncodeField(last) + rest);
      FieldsRoundTrip(e, front, EncodeField(last) + rest);
      FieldRoundTrip(ApplyAll(e, front), last, rest);
    }
  }

  predicate Increasing(files: seq<(nat, nat)>) {
    forall i, j :: 0 <= i < j < |files| ==> Smaller(files[i], files[j])
  }

  /** An edit that the store can have written. */
  predicate EditOk(e: VersionEdit) {
    AllFit(Fields(e)) && Increasing(e.deleted)
  }

  /** Clear() leaves the compaction pointers alone. */
  function Cleared(e: VersionEdit): VersionEdit {
    VersionEdit(None, None, None, None, None, e.compactPointers, [], [])
  }

  lemma {:induction false} ApplyConcat(e: VersionEdit, xs: seq<Field>, ys: seq<Field>)
    ensures ApplyAll(e, xs + ys) == ApplyAll(ApplyAll(e, xs), ys)
    decreases |ys|
  {
    hide Apply;
    if ys == [] {
      assert xs + ys == xs;
    } else {
      assert (xs + ys)[..|xs + ys| - 1] == xs + ys[..|ys| - 1];
      ApplyConcat(e, xs, ys[..|ys| - 1]);
    }
  }

  lemma {:induction false} ApplyPointers(e: VersionEdit, ps: seq<(nat, Bytes)>)
    ensures ApplyAll(e, PointerFields(ps))
         == e.(compactPointers := e.compactPointers + ps)
    decreases |ps|
  {
    var fs := PointerFields(ps);
    if ps == [] {
      assert e.compactPointers + ps == e.compactPointers;
    } else {
      var front := ps[..|ps| - 1];
      assert fs[..|fs| - 1] == PointerFields(front);
      ApplyPointers(e, front);
      assert e.compactPointers + front + [ps[|ps| - 1]] == e.compactPointers + ps;
    }
  }

  lemma {:induction false} ApplyDeletions(e: VersionEdit, ds: seq<(nat, nat)>)
    requires e.deleted == [] && Increasing(ds)
    ensures ApplyAll(e, DeletionFields(ds)) == e.(deleted := ds)
    decreases |ds|
  {
    var fs := DeletionFields(ds);
    if ds != [] {
      var front := ds[..|ds| - 1];
      assert fs[..|fs| - 1] == DeletionFields(front);
      ApplyDeletions(e, front);
      assert front + [ds[|ds| - 1]] == ds;
    }
  }

  lemma {:induction false} ApplyAdditions(e: VersionEdit, ns: seq<(nat, FileMeta)>)
    ensures ApplyAll(e, AdditionFields(ns))
         == e.(newFiles := e.newFiles + ns)
    decreases |ns|
  {
    var fs := AdditionFields(ns);
    if ns == [] {
      assert e.newFiles + ns == e.newFiles;
    } else {
      var front := ns[..|ns| - 1];
      assert fs[..|fs| - 1] == AdditionFields(front);
      ApplyAdditions(e, front);
      assert e.newFiles + front + [ns[|ns| - 1]] == e.newFiles + ns;
    }
  }

  lemma ApplyScalars(e: VersionEdit, base: VersionEdit)
    requires base == Cleared(base)
    ensures ApplyAll(base, Scalars(e))
         == VersionEdit(e.comparator, e.logNumber, e.prevLogNumber, e.nextFile, e.lastSequence, base.compactPointers,
             [], [])
  {
    hide One, ApplyAll, NameField, LogField, PrevLogField, NextField, LastField, Apply;
    var a, b, c, d, f := NameField(e), LogField(e), PrevLogField(e), NextField(e), LastField(e);
    ApplyConcat(base, One(a) + One(b) + One(c) + One(d), One(f));
    ApplyConcat(base, One(a) + One(b) + One(c), One(d));
    ApplyConcat(base, One(a) + One(b), One(c));
    ApplyConcat(base, One(a), One(b));
    var e1 := ApplyAll(base, One(a));
    var e2 := ApplyAll(e1, One(b));
    var e3 := ApplyAll(e2, One(c));
    var e4 := ApplyAll(e3, One(d));
    ApplyEachScalar(e, base);
    ApplyEachScalar(e, e1);
    ApplyEachScalar(e, e2);
    ApplyEachScalar(e, e3);
    ApplyEachScalar(e, e4);
  }

  lemma ApplyEachScalar(e: VersionEdit, b: VersionEdit)
    ensures b.comparator == None ==> ApplyAll(b, One(NameField(e))) == b.(comparator := e.comparator)
    ensures b.logNumber == None ==> ApplyAll(b, One(LogField(e))) == b.(logNumber := e.logNumber)
    ensures b.prevLogNumber == None ==> ApplyAll(b, One(PrevLogField(e))) == b.(prevLogNumber := e.prevLogNumber)
    ensures b.nextFile == None ==> ApplyAll(b, One(NextField(e))) == b.(nextFile := e.nextFile)
    ensures b.lastSequence == None ==> ApplyAll(b, One(LastField(e))) == b.(lastSequence := e.lastSequence)
  {
    ApplyOne(b, NameField(e));
    ApplyOne(b, LogField(e));
    ApplyOne(b, PrevLogField(e));
    ApplyOne(b, NextField(e));
    ApplyOne(b, LastField(e));
  }

  lemma ApplyOne(e: VersionEdit, o: Option<Field>)
    ensures ApplyAll(e, One(o)) == if o.Some? then Apply(e, o.value) else e
  {
    if o.Some? {
      assert One(o)[..0] == [];
    }
  }

  /**
   DecodeFrom after EncodeTo gives every field back. DecodeFrom clears everything but the compaction pointers, so the
   result is the edit itself exactly when it is decoded into an edit without compaction pointers.
   */
  lemma EditRoundTrip(e: VersionEdit, into: VersionEdit)
    requires EditOk(e)
    ensures DecodeFields(Cleared(into), EncodeFields(Fields(e)))
         == Some(e.(compactPointers := into.compactPointers + e.compactPointers))
    ensures DecodeFields(Cleared(into), EncodeFields(Fields(e))) == Some(e) <==> into.compactPointers == []
  {
    hide Apply, Scalars, PointerFields, DeletionFields, AdditionFields, EncodeFields;
    var base := Cleared(into);
    FieldsRoundTrip(base, Fields(e), []);
    assert EncodeFields(Fields(e)) + [] == EncodeFields(Fields(e));
    ApplyConcat(base, Scalars(e) + PointerFields(e.compactPointers) + DeletionFields(e.deleted),
        AdditionFields(e.newFiles));
    ApplyConcat(base, Scalars(e) + PointerFields(e.compactPointers), DeletionFields(e.deleted));
    ApplyConcat(base, Scalars(e), PointerFields(e.compactPointers));
    AppliedFields(e, base);
    NothingToDecode(ApplyAll(base, Fields(e)));
    if into.compactPointers + e.compactPointers == e.compactPointers {
      assert |into.compactPointers| + |e.compactPointers| == |e.compactPointers|;
    }
    assert into.compactPointers == [] ==> into.compactPointers + e.compactPointers == e.compactPointers;
  }

  lemma AppliedFields(e: VersionEdit, base: VersionEdit)
    requires EditOk(e) && base == Cleared(base)
    ensures ApplyAll(ApplyAll(ApplyAll(ApplyAll(base, Scalars(e)), PointerFields(e.compactPointers)),
            DeletionFields(e.deleted)), AdditionFields(e.newFiles))
         == e.(compactPointers := base.compactPointers + e.compactPointers)
  {
    hide Apply, ApplyAll, Scalars, AllFit, Increasing;
    ApplyScalars(e, base);
    var e1 := ApplyAll(base, Scalars(e));
    assert e1.deleted == [] && e1.newFiles == [];
    ApplyPointers(e1, e.compactPointers);
    var e2 := ApplyAll(e1, PointerFields(e.compactPointers));
    assert e2 == e1.(compactPointers := base.compactPointers + e.compactPointers);
    ApplyDeletions(e2, e.deleted);
    var e3 := ApplyAll(e2, DeletionFields(e.deleted));
    assert e3 == e2.(deleted := e.deleted);
    ApplyAdditions(e3, e.newFiles);
    assert [] + e.newFiles == e.newFiles;
  }

  lemma NothingToDecode(e: VersionEdit)
    ensures DecodeFields(e, []) == Some(e)
  {
  }

  // ----- what any bytes decode to -----

  /** A field that can be read has values of the right widths, at levels that exist. */
  lemma ReadFits(tag: nat, s: Bytes)
    ensures GetField(tag, s).Parsed? ==> FieldFits(GetField(tag, s).value)
  {
    hide Varint;
    if GetLevel(s).Parsed? {
      MetaReadFits(GetLevel(s).rest);
    }
  }

  lemma MetaReadFits(s: Bytes)
    ensures GetMeta(s).Parsed? ==> MetaFits(GetMeta(s).value)
  {
    hide Varint;
  }

  lemma {:induction false} InsertKeepsIncreasing(files: seq<(nat, nat)>, f: (nat, nat))
    requires Increasing(files)
    ensures Increasing(InsertFile(files, f))
    ensures forall g :: g in InsertFile(files, f) <==> g in files || g == f
    decreases |files|
  {
    if files != [] {
      var front, last := files[..|files| - 1], files[|files| - 1];
      assert files == front + [last];
      if last != f && !Smaller(last, f) {
        InsertKeepsIncreasing(front, f);
        var r := InsertFile(front, f);
        forall i | 0 <= i < |r|
          ensures Smaller(r[i], last)
        {
          assert r[i] in r;
        }
      }
    }
  }

  /** All values of the edit fit their encoding. */
  predicate EditFits(e: VersionEdit) {
    && AllFit(Scalars(e)) && AllFit(PointerFields(e.compactPointers)) && AllFit(AdditionFields(e.newFiles))
    && (forall f :: f in e.deleted ==> FieldFits(DeletedFile(f))) && Increasing(e.deleted)
  }

  predicate OneFits(o: Option<Field>) {
    o.Some? ==> FieldFits(o.value)
  }

  lemma ScalarsFit(e: VersionEdit)
    ensures AllFit(Scalars(e)) <==> OneFits(NameField(e)) && OneFits(LogField(e)) && OneFits(PrevLogField(e)) &&
                                    OneFits(NextField(e)) && OneFits(LastField(e))
  {
    hide FieldFits, NameField, LogField, PrevLogField, NextField, LastField;
    var a, b, c, d, f := NameField(e), LogField(e), PrevLogField(e), NextField(e), LastField(e);
    OneMoreFits([], a);
    OneMoreFits([] + One(a), b);
    OneMoreFits([] + One(a) + One(b), c);
    OneMoreFits([] + One(a) + One(b) + One(c), d);
    OneMoreFits([] + One(a) + One(b) + One(c) + One(d), f);
    assert [] + One(a) == One(a);
  }

  lemma OneMoreFits(fs: seq<Field>, o: Option<Field>)
    ensures AllFit(fs + One(o)) <==> AllFit(fs) && OneFits(o)
  {
    hide FieldFits;
    var all := fs + One(o);
    assert forall i :: 0 <= i < |fs| ==> all[i] == fs[i];
    assert o.Some? ==> all[|fs|] == o.value;
  }

  /** Applying a field that fits. */
  lemma ApplyKeepsFits(e: VersionEdit, f: Field)
    requires EditFits(e) && FieldFits(f)
    ensures EditFits(Apply(e, f))
  {
    hide Scalars, Increasing, InsertFile;
    ScalarsFit(e);
    var r := Apply(e, f);
    ScalarsFit(r);
    match f
    case CompactPointer(p) =>
      assert forall i :: 0 <= i < |r.compactPointers| ==>
          PointerFields(r.compactPointers)[i]
          == if i < |e.compactPointers| then PointerFields(e.compactPointers)[i] else f;
    case DeletedFile(d) => InsertKeepsIncreasing(e.deleted, d);
    case NewFile(level, m) =>
      assert forall i :: 0 <= i < |r.newFiles| ==>
          AdditionFields(r.newFiles)[i] == if i < |e.newFiles| then AdditionFields(e.newFiles)[i] else f;
    case _ =>
  }

  lemma {:induction false} DecodedEditFits(e: VersionEdit, input: Bytes)
    requires EditFits(e) && DecodeFields(e, input).Some?
    ensures EditFits(DecodeFields(e, input).value)
    decreases |input|
  {
    hide EditFits, FieldFits, GetField, Apply, Varint;
    if GetVarint32(input).Parsed? {
      var t := GetVarint32(input);
      var f := GetField(t.value, t.rest);
      FieldConsumes(input, t.value, t.rest);
      ReadFits(t.value, t.rest);
      ApplyKeepsFits(e, f.value);
      DecodedEditFits(Apply(e, f.value), f.rest);
    }
  }

  lemma FitsIsOk(e: VersionEdit)
    requires EditFits(e)
    ensures EditOk(e)
  {
    hide FieldFits, Scalars, PointerFields, AdditionFields, Increasing;
    var fs := Fields(e);
    var a, b, c := |Scalars(e)|, |PointerFields(e.compactPointers)|, |e.deleted|;
    forall i | 0 <= i < |fs|
      ensures FieldFits(fs[i])
    {
      if i < a {
        assert fs[i] == Scalars(e)[i];
      } else if i < a + b {
        assert fs[i] == PointerFields(e.compactPointers)[i - a];
      } else if i < a + b + c {
        assert fs[i] == DeletedFile(e.deleted[i - a - b]);
      } else {
        assert fs[i] == AdditionFields(e.newFiles)[i - a - b - c];
      }
    }
  }

  /**
   Whatever bytes DecodeFrom accepts, the edit is one the store can write again: every level exists, every number fits
   its width, and the deleted files are a set.
   */
  lemma DecodedIsOk(into: VersionEdit, src: Bytes)
    requires AllFit(PointerFields(into.compactPointers)) && DecodeFields(Cleared(into), src).Some?
    ensures EditOk(DecodeFields(Cleared(into), src).value)
  {
    hide DecodeFields, FieldFits, PointerFields;
    assert Scalars(Cleared(into)) == [];
    DecodedEditFits(Cleared(into), src);
    FitsIsOk(DecodeFields(Cleared(into), src).value);
  }

  // ----- the methods -----

  /** EncodeTo: the present scalars, then the three lists. */
  method EncodeTo(e: VersionEdit) returns (dst: Bytes)
    ensures dst == EncodeFields(Fields(e))
  {
    hide EncodeFields, Scalars, PointerFields, DeletionFields, AdditionFields;
    dst := EncodeScalars(e);
    dst := EncodePointers(dst, e, Scalars(e));
    dst := EncodeDeletions(dst, e, Scalars(e) + PointerFields(e.compactPointers));
    dst := EncodeAdditions(dst, e, Scalars(e) + PointerFields(e.compactPointers) + DeletionFields(e.deleted));
  }

  method EncodePointers(before: Bytes, e: VersionEdit, ghost fs: seq<Field>) returns (dst: Bytes)
    requires before == EncodeFields(fs)
    ensures dst == EncodeFields(fs + PointerFields(e.compactPointers))
  {
    hide EncodeField, EncodeFields;
    dst := before;
    assert fs + PointerFields(e.compactPointers)[..0] == fs;
    for i := 0 to |e.compactPointers|
      invariant dst == EncodeFields(fs + PointerFields(e.compactPointers)[..i])
    {
      AppendField(fs + PointerFields(e.compactPointers)[..i], PointerFields(e.compactPointers)[i]);
      assert fs + PointerFields(e.compactPointers)[..i + 1]
             == fs + PointerFields(e.compactPointers)[..i] + [PointerFields(e.compactPointers)[i]];
      dst := dst + EncodeField(CompactPointer(e.compactPointers[i]));
    }
    assert PointerFields(e.compactPointers)[..|e.compactPointers|] == PointerFields(e.compactPointers);
  }

  method EncodeDeletions(before: Bytes, e: VersionEdit, ghost fs: seq<Field>) returns (dst: Bytes)
    requires before == EncodeFields(fs)
    ensures dst == EncodeFields(fs + DeletionFields(e.deleted))
  {
    hide EncodeField, EncodeFields;
    dst := before;
    assert fs + DeletionFields(e.deleted)[..0] == fs;
    for i := 0 to |e.deleted|
      invariant dst == EncodeFields(fs + DeletionFields(e.deleted)[..i])
    {
      AppendField(fs + DeletionFields(e.deleted)[..i], DeletionFields(e.deleted)[i]);
      assert fs + DeletionFields(e.deleted)[..i + 1]
             == fs + DeletionFields(e.deleted)[..i] + [DeletionFields(e.deleted)[i]];
      dst := dst + EncodeField(DeletedFile(e.deleted[i]));
    }
    assert DeletionFields(e.deleted)[..|e.deleted|] == DeletionFields(e.deleted);
  }

  method EncodeAdditions(before: Bytes, e: VersionEdit, ghost fs: seq<Field>) returns (dst: Bytes)
    requires before == EncodeFields(fs)
    ensures dst == EncodeFields(fs + AdditionFields(e.newFiles))
  {
    hide EncodeField, EncodeFields;
    dst := before;
    assert fs + AdditionFields(e.newFiles)[..0] == fs;
    for i := 0 to |e.newFiles|
      invariant dst == EncodeFields(fs + AdditionFields(e.newFiles)[..i])
    {
      AppendField(fs + AdditionFields(e.newFiles)[..i], AdditionFields(e.newFiles)[i]);
      assert fs + AdditionFields(e.newFiles)[..i + 1]
             == fs + AdditionFields(e.newFiles)[..i] + [AdditionFields(e.newFiles)[i]];
      dst := dst + EncodeField(NewFile(e.newFiles[i].0, e.newFiles[i].1));
    }
    assert AdditionFields(e.newFiles)[..|e.newFiles|] == AdditionFields(e.newFiles);
  }

  method EncodeScalars(e: VersionEdit) returns (dst: Bytes)
    ensures dst == EncodeFields(Scalars(e))
  {
    hide EncodeFields;
    hide EncodeField;
    EncodeOne([], NameField(e));
    EncodeOne(One(NameField(e)), LogField(e));
    EncodeOne(One(NameField(e)) + One(LogField(e)), PrevLogField(e));
    EncodeOne(One(NameField(e)) + One(LogField(e)) + One(PrevLogField(e)), NextField(e));
    EncodeOne(One(NameField(e)) + One(LogField(e)) + One(PrevLogField(e)) + One(NextField(e)), LastField(e));
    assert [] + One(NameField(e)) == One(NameField(e));
    dst := [];
    EncodeNothing();
    if e.comparator.Some? {
      dst := dst + EncodeField(Comparator(e.comparator.value));
    }
    assert dst == EncodeFields(One(NameField(e)));
    if e.logNumber.Some? {
      dst := dst + EncodeField(LogNumber(e.logNumber.value));
    }
    assert dst == EncodeFields(One(NameField(e)) + One(LogField(e)));
    if e.prevLogNumber.Some? {
      dst := dst + EncodeField(PrevLogNumber(e.prevLogNumber.value));
    }
    assert dst == EncodeFields(One(NameField(e)) + One(LogField(e)) + One(PrevLogField(e)));
    if e.nextFile.Some? {
      dst := dst + EncodeField(NextFile(e.nextFile.value));
    }
    assert dst == EncodeFields(One(NameField(e)) + One(LogField(e)) + One(PrevLogField(e)) + One(NextField(e)));
    if e.lastSequence.Some? {
      dst := dst + EncodeField(LastSequence(e.lastSequence.value));
    }
  }

  lemma EncodeNothing()
    ensures EncodeFields([]) == []
  {
  }

  lemma EncodeOne(fs: seq<Field>, o: Option<Field>)
    ensures EncodeFields(fs + One(o)) == if o.Some? then EncodeFields(fs) + EncodeField(o.value) else EncodeFields(fs)
  {
    if o.Some? {
      AppendField(fs, o.value);
    } else {
      assert fs + One(o) == fs;
    }
  }

  lemma AppendField(fs: seq<Field>, f: Field)
    ensures EncodeFields(fs + [f]) == EncodeFields(fs) + EncodeField(f)
  {
    assert (fs + [f])[..|fs|] == fs;
  }

  /** DecodeFrom: None stands for a corruption status. */
  method DecodeFrom(into: VersionEdit, src: Bytes) returns (r: Option<VersionEdit>)
    ensures r == DecodeFields(Cleared(into), src)
  {
    hide GetField, Apply;
    var e, input := Cleared(into), src;
    while true
      invariant DecodeFields(e, input) == DecodeFields(Cleared(into), src)
      decreases |input|
    {
      var tag := GetVarint32(input);
      if tag.Failed? {
        return if input == [] then Some(e) else None;
      }
      var f := GetField(tag.value, tag.rest);
      if f.Failed? {
        return None;
      }
      FieldConsumes(input, tag.value, tag.rest);
      e := Apply(e, f.value);
      input := f.rest;
    }
  }
}
