/** The circular walk over field descriptors: pb_common.c, with the offset macros of pb.h. */
module PbFieldIter {
  datatype HType = Required | Optional | Repeated | OneOf
  datatype AType = Static | Pointer | Callback

  /** pb_field_t; the terminator with tag 0 is not an element. Offsets in `ptr` units of bytes. */
  datatype Desc = Desc(tag: nat, htype: HType, atype: AType, extension: bool, dataOffset: nat, sizeOffset: int,
                       dataSize: nat, arraySize: nat)

  /** data_offset of a union member behind another, the largest pb_size_t. */
  const SIZE_MAX: nat := 0xFFFF
  const ADDRESS_SIZE: nat := 8

  predicate SharesUnion(prev: Desc, next: Desc) {
    prev.htype == OneOf && next.htype == OneOf && next.dataOffset == SIZE_MAX
  }

  /** The bytes of a member in its struct: pb_membersize. */
  function MemberSize(d: Desc): nat {
    if d.atype == Static && d.htype == Repeated then d.dataSize * d.arraySize
    else if d.atype == Pointer then ADDRESS_SIZE
    else d.dataSize
  }

  /** The first member of the union that holds field `i`, or `i` itself. */
  function UnionStart(fields: seq<Desc>, i: nat): (u: nat)
    requires i < |fields|
    ensures u <= i
  {
    if i > 0 && SharesUnion(fields[i - 1], fields[i]) then UnionStart(fields, i - 1) else i
  }

  /**
   The descriptors describe a struct whose members start at `offsets`, as the PB_DATAOFFSET macros write them. The
   offset of a member counts from the end of the field before it, the last one of a union; the compiler lays the
   member out behind the largest.
   */
  ghost predicate Describes(fields: seq<Desc>, offsets: seq<nat>) {
    |offsets| == |fields| &&
    forall i {:trigger OffsetOk(fields, offsets, i)} :: 0 <= i < |fields| ==> OffsetOk(fields, offsets, i)
  }

  ghost predicate Behind(fields: seq<Desc>, offsets: seq<nat>, k: nat, i: nat)
    requires k < i < |fields| == |offsets|
  {
    offsets[k] + MemberSize(fields[k]) <= offsets[i]
  }

  ghost predicate OffsetOk(fields: seq<Desc>, offsets: seq<nat>, i: int)
    requires 0 <= i < |fields| == |offsets|
  {
    fields[i].tag != 0 &&
    if i == 0 then fields[0].dataOffset == offsets[0]
    else if SharesUnion(fields[i - 1], fields[i]) then
      offsets[i] == offsets[i - 1] && fields[i].sizeOffset == fields[i - 1].sizeOffset
    else
      && fields[i].dataOffset + offsets[i - 1] + MemberSize(fields[i - 1]) == offsets[i]
      && forall k :: UnionStart(fields, i - 1) <= k < i ==> Behind(fields, offsets, k, i)
  }

  function RequiredBefore(fields: seq<Desc>, i: nat): (n: nat)
    requires i <= |fields|
    ensures n <= i
  {
    if i == 0 then 0 else RequiredBefore(fields, i - 1) + if fields[i - 1].htype == Required then 1 else 0
  }

  predicate Matches(d: Desc, tag: nat) {
    d.tag == tag && !d.extension
  }

  /** Going around `n` fields. */
  function Around(i: nat, n: nat): nat {
    if i < n then i else i - n
  }

  /** pb_field_iter_t over a struct at address 0; `pos` is the number of the field. */
  class FieldIter {
    const start: seq<Desc>
    ghost const offsets: seq<nat>
    var pos: nat
    var requiredIndex: nat
    var pData: int
    var pSize: int

    /** However the iterator came to a field, it points at that field's member and knows its required number. */
    ghost predicate Valid()
      reads this
    {
      && Describes(start, offsets) && start != [] && pos < |start|
      && pData == offsets[pos] && pSize == offsets[pos] + start[pos].sizeOffset
      && requiredIndex == RequiredBefore(start, pos)
    }

    lemma InRange()
      requires Valid()
      ensures pos < |start|
    {
    }

    /** pb_field_iter_begin on a message type with fields. */
    constructor (fields: seq<Desc>, ghost offsets: seq<nat>)
      requires Describes(fields, offsets) && fields != []
      ensures Valid() && pos == 0 && start == fields && this.offsets == offsets
    {
      assert OffsetOk(fields, offsets, 0);
      start, this.offsets := fields, offsets;
      pos, requiredIndex := 0, 0;
      pData := fields[0].dataOffset;
      pSize := fields[0].dataOffset + fields[0].sizeOffset;
    }

    method Begin()
      requires Describes(start, offsets) && start != []
      modifies `pos, `requiredIndex, `pData, `pSize
      ensures Valid() && pos == 0
    {
      assert OffsetOk(start, offsets, 0);
      pos, requiredIndex := 0, 0;
      pData := start[0].dataOffset;
      pSize := pData + start[0].sizeOffset;
    }

    /** pb_field_iter_next: false when it wrapped around. */
    method Next() returns (more: bool)
      requires Valid()
      modifies `pos, `requiredIndex, `pData, `pSize
      ensures Valid() && pos == Around(old(pos) + 1, |start|) && more == (old(pos) + 1 < |start|)
    {
      var prev := start[pos];
      if pos + 1 == |start| {
        Begin();
        return false;
      }
      var next := start[pos + 1];
      assert OffsetOk(start, offsets, pos + 1);
      hide MemberSize, Describes;
      if SharesUnion(prev, next) {
        pos := pos + 1;
        return true;
      }
      if prev.htype == Required {
        requiredIndex := requiredIndex + 1;
      }
      pos := pos + 1;
      pData := pData + MemberSize(prev) + next.dataOffset;
      pSize := pData + next.sizeOffset;
      more := true;
    }

    /** pb_field_iter_find: the first match going around from the current field, which is kept when there is none. */
    method Find(tag: nat) returns (found: bool)
      requires Valid()
      modifies `pos, `requiredIndex, `pData, `pSize
      ensures Valid() && found == (exists i :: 0 <= i < |start| && Matches(start[i], tag))
      ensures found ==> Matches(start[pos], tag)
      ensures found && old(pos) <= pos ==> forall i :: old(pos) <= i < pos ==> !Matches(start[i], tag)
      ensures found && pos < old(pos) ==>
        forall i :: 0 <= i < |start| && (i < pos || old(pos) <= i) ==> !Matches(start[i], tag)
      ensures !found ==> pos == old(pos)
    {
      InRange();
      hide FieldIter.Valid, Matches;
      var begin := pos;
      ghost var steps: nat := 0;
      while true
        invariant Valid() && steps < |start| && pos == Around(begin + steps, |start|)
        invariant forall i :: 0 <= i < |start| && (begin <= i < begin + steps || i + |start| < begin + steps)
                    ==> !Matches(start[i], tag)
        decreases |start| - steps
      {
        if Matches(start[pos], tag) {
          return true;
        }
        var more := Next();
        InRange();
        steps := steps + 1;
        if pos == begin {
          break;
        }
      }
      found := false;
    }
  }

  lemma {:induction false} UnionIsOneRun(fields: seq<Desc>, offsets: seq<nat>, i: nat, j: nat)
    requires Describes(fields, offsets) && i <= j < |fields| && UnionStart(fields, j) <= i
    ensures UnionStart(fields, i) == UnionStart(fields, j) && offsets[i] == offsets[j]
    decreases j
  {
    if i < j {
      assert OffsetOk(fields, offsets, j);
      UnionIsOneRun(fields, offsets, i, j - 1);
    }
  }

  /** Fields overlap only within a union: all others come in order, each behind the whole of those before it. */
  lemma {:induction false} MembersAreApart(fields: seq<Desc>, offsets: seq<nat>, i: nat, j: nat)
    requires Describes(fields, offsets) && i < j < |fields|
    ensures if UnionStart(fields, i) == UnionStart(fields, j) then offsets[i] == offsets[j]
            else offsets[i] + MemberSize(fields[i]) <= offsets[j]
    decreases j
  {
    hide MemberSize;
    var u := UnionStart(fields, j);
    UnionIsOneRun(fields, offsets, u, j);
    if u <= i {
      UnionIsOneRun(fields, offsets, i, j);
    } else {
      assert UnionStart(fields, i) <= i < u;
      assert OffsetOk(fields, offsets, u);
      if UnionStart(fields, u - 1) <= i {
        assert Behind(fields, offsets, i, u);
      } else {
        MembersAreApart(fields, offsets, i, u - 1);
      }
    }
  }
}
