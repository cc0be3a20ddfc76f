// User keys: the bytewise comparator, and why the storage modules may use real numbers for keys.

/** Byte strings, the `Slice` of the engine. */
module ByteStrings {
  type Byte = b: int | 0 <= b < 256
  type Bytes = seq<Byte>

  /** Length of the longest common prefix of `a` and `b`. */
  function CommonPrefix(a: Bytes, b: Bytes): (n: nat)
    ensures n <= |a| && n <= |b| && a[..n] == b[..n]
    ensures n < |a| && n < |b| ==> a[n] != b[n]
  {
    if a == [] || b == [] || a[0] != b[0] then 0
    else
      var n := CommonPrefix(a[1..], b[1..]);
      assert a[..n + 1] == [a[0]] + a[1..][..n] && b[..n + 1] == [b[0]] + b[1..][..n];
      n + 1
  }

  lemma CommonPrefixIs(a: Bytes, b: Bytes, n: nat)
    requires n <= |a| && n <= |b| && a[..n] == b[..n] && (n < |a| && n < |b| ==> a[n] != b[n])
    ensures n == CommonPrefix(a, b)
  {
    var m := CommonPrefix(a, b);
    assert forall i :: 0 <= i < n ==> a[..n][i] == a[i] && b[..n][i] == b[i];
    assert forall i :: 0 <= i < m ==> a[..m][i] == a[i] && b[..m][i] == b[i];
  }

  /** Three-way comparison: the first differing byte decides, then the length. */
  function Compare(a: Bytes, b: Bytes): int {
    var n := CommonPrefix(a, b);
    if n < |a| && n < |b| then (if a[n] < b[n] then -1 else 1)
    else if |a| < |b| then -1
    else if |a| > |b| then 1
    else 0
  }
}

/**
 The storage modules touch user keys only through the user comparator, so any totally ordered type would do.
 They use real numbers: `Rank` maps byte strings into the reals and keeps the bytewise order in both directions,
 so a property of all real keys is in particular a property of all byte-string keys under the default comparator.
 */
module UserKeys {
  import opened ByteStrings

  type UserKey = real

  function Rank(s: Bytes): (r: UserKey)
    ensures 0.0 <= r < 1.0
  {
    if s == [] then 0.0 else (s[0] as real + 1.0 + Rank(s[1..])) / 257.0
  }

  lemma {:induction false} RankEmbedsBytewiseOrder(a: Bytes, b: Bytes)
    ensures Compare(a, b) < 0 <==> Rank(a) < Rank(b)
    ensures Compare(a, b) == 0 <==> Rank(a) == Rank(b)
    ensures Rank(a) == Rank(b) <==> a == b
  {
    if a == [] || b == [] {
    } else if a[0] != b[0] {
      var low, high := if a[0] < b[0] then a else b, if a[0] < b[0] then b else a;
      assert low[0] as real + 1.0 <= high[0] as real;
    } else {
      RankEmbedsBytewiseOrder(a[1..], b[1..]);
      assert CommonPrefix(a, b) == CommonPrefix(a[1..], b[1..]) + 1;
      assert a == [a[0]] + a[1..] && b == [b[0]] + b[1..];
    }
  }
}
