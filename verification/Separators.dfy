/**
 Shortened index keys (util/comparator.cc:29-66, db/dbformat.cc:46-109): internal keys as bytes, their comparator, and
 the separator and successor functions of both comparators.
 */
module Separators {
  import opened ByteStrings
  import opened UserKeys
  import opened Coding

  // ----- the bytewise comparator -----

  lemma CompareIsTotal(a: Bytes, b: Bytes, c: Bytes)
    ensures Compare(a, b) < 0 && Compare(b, c) < 0 ==> Compare(a, c) < 0
    ensures Compare(a, b) < 0 <==> Compare(b, a) > 0
    ensures Compare(a, b) == 0 <==> a == b
  {
    RankEmbedsBytewiseOrder(a, b);
    RankEmbedsBytewiseOrder(b, a);
    RankEmbedsBytewiseOrder(b, c);
    RankEmbedsBytewiseOrder(a, c);
  }

  /** Where two strings first differ decides. */
  lemma CompareAt(a: Bytes, b: Bytes, n: nat)
    requires n < |a| && n < |b| && a[..n] == b[..n] && a[n] != b[n]
    ensures Compare(a, b) == if a[n] < b[n] then -1 else 1
  {
    var m := CommonPrefix(a, b);
    assert forall i :: 0 <= i < n ==> a[..n][i] == a[i] && b[..n][i] == b[i];
    assert forall i :: 0 <= i < m ==> a[..m][i] == a[i] && b[..m][i] == b[i];
    assert m == n;
  }

  /** Strings from `start` up to `limit` begin with what the two have in common, and more. */
  lemma NoShorterBetween(start: Bytes, limit: Bytes, x: Bytes)
    requires CommonPrefix(start, limit) < |start| && CommonPrefix(start, limit) < |limit|
    requires Compare(start, x) <= 0 && Compare(x, limit) < 0
    ensures |x| > CommonPrefix(start, limit)
  {
    var n, m := CommonPrefix(start, limit), CommonPrefix(start, x);
    if |x| <= n && m < |x| {
      assert start[..n][m] == limit[..n][m] && start[..n][..m] == limit[..n][..m];
      assert x[..m] == limit[..m];
      CompareAt(x, limit, m);
    }
  }

  lemma NoShorterFrom(key: Bytes, i: nat, x: Bytes)
    requires i < |key| && (forall j :: 0 <= j < i ==> key[j] == 0xff) && Compare(key, x) <= 0
    ensures |x| > i
  {
  }

  /** Both start with a common prefix, and behind it there is room for a byte between them. */
  predicate RoomBetween(start: Bytes, limit: Bytes) {
    var n := CommonPrefix(start, limit);
    n < |start| && n < |limit| && start[n] as int + 1 < limit[n] as int
  }

  /**
   FindShortestSeparator: a string from `start` up to but not including `limit`, no longer than `start`.
   It is changed exactly if a byte fits in where the two differ, and then no string in the range is shorter.
   */
  method FindShortestSeparator(start: Bytes, limit: Bytes) returns (r: Bytes)
    ensures |r| <= |start| && (r == start || (Compare(start, r) < 0 && Compare(r, limit) < 0))
    ensures r == start <==> !RoomBetween(start, limit)
    ensures RoomBetween(start, limit) ==> |r| == CommonPrefix(start, limit) + 1
    ensures RoomBetween(start, limit) ==> forall x :: Compare(start, x) <= 0 && Compare(x, limit) < 0 ==> |r| <= |x|
  {
    hide Compare;
    r := start;
    var minLength := if |start| < |limit| then |start| else |limit|;
    var diff := 0;
    while diff < minLength && start[diff] == limit[diff]
      invariant diff <= minLength && start[..diff] == limit[..diff]
    {
      diff := diff + 1;
    }
    CommonPrefixIs(start, limit, diff);
    if diff < minLength {
      var byte := start[diff];
      if byte < 0xff && byte as int + 1 < limit[diff] as int {
        r := start[..diff] + [(byte as int + 1) as Byte];
        assert r[..diff] == start[..diff] && r[diff] == byte + 1;
        CompareAt(start, r, diff);
        CompareAt(r, limit, diff);
        forall x | Compare(start, x) <= 0 && Compare(x, limit) < 0
          ensures |r| <= |x|
        {
          NoShorterBetween(start, limit, x);
        }
      }
    }
  }

  /**
   FindShortSuccessor: a string not before `key` and no longer, changed unless all bytes are 0xff; then no string from
   `key` on is shorter.
   */
  method FindShortSuccessor(key: Bytes) returns (r: Bytes)
    ensures |r| <= |key| && (r == key || Compare(key, r) < 0)
    ensures r == key <==> forall i :: 0 <= i < |key| ==> key[i] == 0xff
    ensures |r| < |key| <==> exists i :: 0 <= i < |key| - 1 && key[i] != 0xff
    ensures r != key ==> forall x :: Compare(key, x) <= 0 ==> |r| <= |x|
  {
    hide Compare;
    var i := 0;
    while i < |key|
      invariant i <= |key| && forall j :: 0 <= j < i ==> key[j] == 0xff
    {
      if key[i] != 0xff {
        r := key[..i] + [(key[i] as int + 1) as Byte];
        assert r[..i] == key[..i] && r[i] == key[i] + 1;
        CompareAt(key, r, i);
        forall x | Compare(key, x) <= 0
          ensures |r| <= |x|
        {
          NoShorterFrom(key, i, x);
        }
        return;
      }
      i := i + 1;
    }
    r := key;
  }

  // ----- internal keys as bytes -----

  const TAG_SIZE: nat := 8

  /** `kMaxSequenceNumber << 8 | kValueTypeForSeek`, the largest tag of all. */
  const EARLIEST_TAG: nat := 0xffff_ffff_ffff_ff01

  /** ExtractUserKey; a string without a tag has an empty user key. */
  function UserKeyOf(k: Bytes): Bytes {
    if |k| >= TAG_SIZE then k[..|k| - TAG_SIZE] else []
  }

  function TagOf(k: Bytes): nat {
    if |k| >= TAG_SIZE then DecodeFixed64(k[|k| - TAG_SIZE..]) else 0
  }

  /** The tag of a stored or looked-up key: sequence numbers have 56 bits, types are 0 and 1. */
  predicate IsInternalKey(k: Bytes) {
    |k| >= TAG_SIZE && TagOf(k) <= EARLIEST_TAG
  }

  /** InternalKeyComparator::Compare: increasing user keys, then decreasing tags. */
  function CompareInternal(a: Bytes, b: Bytes): int {
    var r := Compare(UserKeyOf(a), UserKeyOf(b));
    if r != 0 then r else if TagOf(a) > TagOf(b) then -1 else if TagOf(a) < TagOf(b) then 1 else 0
  }

  lemma CompareInternalIsOrdered(a: Bytes, b: Bytes, c: Bytes)
    ensures CompareInternal(a, b) < 0 && CompareInternal(b, c) < 0 ==> CompareInternal(a, c) < 0
    ensures CompareInternal(a, b) < 0 && CompareInternal(b, c) <= 0 ==> CompareInternal(a, c) < 0
    ensures CompareInternal(a, b) <= 0 && CompareInternal(b, c) < 0 ==> CompareInternal(a, c) < 0
    ensures CompareInternal(a, b) < 0 <==> CompareInternal(b, a) > 0
  {
    CompareIsTotal(UserKeyOf(a), UserKeyOf(b), UserKeyOf(c));
    CompareIsTotal(UserKeyOf(b), UserKeyOf(a), UserKeyOf(c));
    CompareIsTotal(UserKeyOf(b), UserKeyOf(c), UserKeyOf(a));
  }

  function WithTag(user: Bytes, tag: nat): Bytes
    requires tag < TWO_64
  {
    user + EncodeFixed64(tag)
  }

  lemma WithTagParts(user: Bytes, tag: nat)
    requires tag < TWO_64
    ensures UserKeyOf(WithTag(user, tag)) == user && TagOf(WithTag(user, tag)) == tag
  {
    var k := WithTag(user, tag);
    assert k[..|k| - TAG_SIZE] == user && k[|k| - TAG_SIZE..] == EncodeFixed64(tag) + [];
    Fixed64RoundTrip(tag, []);
  }

  /** What an index key must be: not before the last key of its block, and before every user key of the next. */
  ghost predicate Separates(last: Bytes, r: Bytes, limit: Bytes) {
    && CompareInternal(last, r) <= 0 && CompareInternal(r, limit) < 0
    && (r == last || Compare(UserKeyOf(r), UserKeyOf(limit)) < 0)
  }

  /** InternalKeyComparator::FindShortestSeparator: the user key is cut exactly if that makes it shorter. */
  method FindShortestInternalSeparator(start: Bytes, limit: Bytes) returns (r: Bytes)
    requires CompareInternal(start, limit) < 0
    ensures |r| <= |start| && Separates(start, r, limit) && (IsInternalKey(start) ==> IsInternalKey(r))
    ensures var user, n := UserKeyOf(start), CommonPrefix(UserKeyOf(start), UserKeyOf(limit));
      if RoomBetween(user, UserKeyOf(limit)) && n + 1 < |user| then |UserKeyOf(r)| == n + 1 && TagOf(r) == EARLIEST_TAG
      else r == start
  {
    r := start;
    CompareIsTotal(UserKeyOf(start), UserKeyOf(start), UserKeyOf(start));
    var userStart, userLimit := UserKeyOf(start), UserKeyOf(limit);
    var tmp := FindShortestSeparator(userStart, userLimit);
    if |tmp| < |userStart| && Compare(userStart, tmp) < 0 {
      r := WithTag(tmp, EARLIEST_TAG);
      WithTagParts(tmp, EARLIEST_TAG);
    }
  }

  /** InternalKeyComparator::FindShortSuccessor. */
  method FindShortInternalSuccessor(key: Bytes) returns (r: Bytes)
    ensures |r| <= |key| && CompareInternal(key, r) <= 0 && (IsInternalKey(key) ==> IsInternalKey(r))
    ensures |r| < |key| <==> exists i :: 0 <= i < |UserKeyOf(key)| - 1 && UserKeyOf(key)[i] != 0xff
    ensures if |r| < |key| then TagOf(r) == EARLIEST_TAG else r == key
  {
    r := key;
    CompareIsTotal(UserKeyOf(key), UserKeyOf(key), UserKeyOf(key));
    var tmp := FindShortSuccessor(UserKeyOf(key));
    if |tmp| < |UserKeyOf(key)| && Compare(UserKeyOf(key), tmp) < 0 {
      r := WithTag(tmp, EARLIEST_TAG);
      WithTagParts(tmp, EARLIEST_TAG);
    }
  }

  /**
   A lookup key at or before the separator of a block, but behind all its keys, shares its user key with no key from
   `limit` on: the block that the index names is the only one that can answer.
   */
  lemma LookupStaysInBlock(last: Bytes, r: Bytes, limit: Bytes, k: Bytes)
    requires Separates(last, r, limit) && CompareInternal(last, k) < 0 && CompareInternal(k, r) <= 0
    ensures Compare(UserKeyOf(k), UserKeyOf(limit)) < 0
  {
    CompareInternalIsOrdered(last, k, last);
    CompareIsTotal(UserKeyOf(k), UserKeyOf(r), UserKeyOf(limit));
  }
}
