/** Internal keys and entries: db/dbformat.h and db/dbformat.cc. */
module DbFormat {
  import opened UserKeys

  type Value = seq<char>

  /** The largest sequence number that fits beside the eight type bits of a 64-bit tag. */
  const MAX_SEQUENCE: nat := 0xff_ffff_ffff_ffff

  const TYPE_DELETION: nat := 0
  const TYPE_VALUE: nat := 1
  const TYPE_FOR_SEEK: nat := TYPE_VALUE

  datatype Op = Delete | Put(value: Value)

  /** One stored fact: `op` happened to `key` at sequence number `sn`. */
  datatype Entry = Entry(key: UserKey, sn: nat, op: Op)

  datatype InternalKey = InternalKey(user: UserKey, sn: nat, typ: nat)

  function KeyOf(e: Entry): InternalKey {
    InternalKey(e.key, e.sn, if e.op.Put? then TYPE_VALUE else TYPE_DELETION)
  }

  /** Increasing user key, then decreasing sequence number, then decreasing type. */
  function Compare(a: InternalKey, b: InternalKey): int {
    if a.user < b.user then -1
    else if a.user > b.user then 1
    else if a.sn > b.sn then -1
    else if a.sn < b.sn then 1
    else if a.typ > b.typ then -1
    else if a.typ < b.typ then 1
    else 0
  }

  /** The key a lookup of `user` at snapshot `sn` seeks to. */
  function LookupKey(user: UserKey, sn: nat): InternalKey {
    InternalKey(user, sn, TYPE_FOR_SEEK)
  }

  /**
   The order on stored entries. Sequence numbers are never reused for a user key, so among stored entries
   the type never decides and is left out here; Compare keeps it.
   */
  predicate Before(a: Entry, b: Entry) {
    a.key < b.key || (a.key == b.key && a.sn > b.sn)
  }

  predicate InOrder(es: seq<Entry>, i: int, j: int) {
    0 <= i < j < |es| ==> Before(es[i], es[j])
  }

  /** Strictly increasing. Proofs instantiate this by naming the pair: `assert InOrder(es, i, j)`. */
  predicate Sorted(es: seq<Entry>) {
    forall i, j :: 0 <= i < |es| && 0 <= j < |es| ==> InOrder(es, i, j)
  }

  /** The packed tag `sequence << 8 | type` that the comparator reads from the last eight bytes. */
  function Tag(k: InternalKey): nat {
    k.sn * 256 + k.typ
  }

  /** Comparing packed tags in decreasing order is comparing sequence numbers and then types. */
  lemma CompareReadsTags(a: InternalKey, b: InternalKey)
    requires a.typ < 256 && b.typ < 256 && a.user == b.user
    ensures Compare(a, b) < 0 <==> Tag(a) > Tag(b)
    ensures Compare(a, b) == 0 <==> Tag(a) == Tag(b)
  {
    if a.sn < b.sn {
      assert Tag(a) < a.sn * 256 + 256 <= b.sn * 256;
    } else if a.sn > b.sn {
      assert Tag(b) < b.sn * 256 + 256 <= a.sn * 256;
    }
  }

  /** A stored entry is before a lookup key exactly when its user key is smaller or it is too new to be seen. */
  lemma BeforeLookupKey(e: Entry, user: UserKey, snap: nat)
    ensures Compare(KeyOf(e), LookupKey(user, snap)) < 0 <==> e.key < user || (e.key == user && e.sn > snap)
  {
  }
}
