/** Filter blocks: one filter for every two kilobytes of data blocks (table/filter_block.cc). */
module FilterBlocks {
  import opened ByteStrings
  import opened Coding
  import opened Bloom

  const BASE_LG: nat := 11
  const BASE: nat := 2048

  /** Where filter `i` ends: where the next one starts, or at the end of the filters. */
  function EndOf(offsets: seq<nat>, size: nat, i: nat): nat
    requires i < |offsets|
  {
    if i + 1 < |offsets| then offsets[i + 1] else size
  }

  ghost predicate GroupFilter(p: Policy, keys: seq<Bytes>, filter: Bytes) {
    if keys == [] then filter == [] else IsFilterOf(p, keys, filter)
  }

  /** Filter `i` is the filter of the keys of its group; a group without keys has an empty filter. */
  ghost predicate GroupOk(p: Policy, result: Bytes, offsets: seq<nat>, groups: seq<seq<Bytes>>, i: nat) {
    && i < |offsets| && i < |groups|
    && offsets[i] <= EndOf(offsets, |result|, i) <= |result|
    && GroupFilter(p, groups[i], result[offsets[i]..EndOf(offsets, |result|, i)])
  }

  ghost predicate FiltersOk(p: Policy, result: Bytes, offsets: seq<nat>, groups: seq<seq<Bytes>>) {
    |offsets| == |groups| && forall i :: 0 <= i < |groups| ==> GroupOk(p, result, offsets, groups, i)
  }

  /** The keys waiting for the next filter, as the flattened bytes hold them. */
  ghost predicate PendingOk(keys: Bytes, start: seq<nat>, pending: seq<Bytes>) {
    && |start| == |pending|
    && forall i :: 0 <= i < |start| ==>
         && start[i] <= EndOf(start, |keys|, i) <= |keys| && keys[start[i]..EndOf(start, |keys|, i)] == pending[i]
  }

  class FilterBlockBuilder {
    const policy: Policy
    var keys: Bytes
    var start: seq<nat>
    var result: Bytes
    var filterOffsets: seq<nat>
    ghost var pending: seq<Bytes>
    ghost var groups: seq<seq<Bytes>>

    ghost predicate Valid()
      reads this
    {
      PolicyOk(policy) && FiltersOk(policy, result, filterOffsets, groups) && PendingOk(keys, start, pending)
    }

    constructor (policy: Policy)
      requires PolicyOk(policy)
      ensures Valid() && pending == [] && groups == [] && this.policy == policy
    {
      this.policy := policy;
      keys, start, result, filterOffsets, pending, groups := [], [], [], [], [], [];
    }

    /**
     Called before the first key of each data block: earlier keys go into their filter when the block index moves on.
     */
    method StartBlock(blockOffset: nat)
      requires Valid() && |groups| <= blockOffset / BASE
      modifies this
      ensures Valid() && |groups| == blockOffset / BASE && old(groups) <= groups
      ensures if |old(groups)| == blockOffset / BASE then groups == old(groups) && pending == old(pending)
              else pending == [] && groups[|old(groups)|] == old(pending)
    {
      hide FiltersOk, PendingOk;
      var index := blockOffset / BASE;
      CountsAgree();
      while index > |filterOffsets|
        invariant Valid() && |filterOffsets| == |groups| <= index && old(groups) <= groups
        invariant if |groups| == |old(groups)| then groups == old(groups) && pending == old(pending)
                  else pending == [] && groups[|old(groups)|] == old(pending)
        decreases index - |filterOffsets|
      {
        GenerateFilter();
        CountsAgree();
      }
    }

    lemma CountsAgree()
      requires Valid()
      ensures |filterOffsets| == |groups| && |start| == |pending|
    {
    }

    method AddKey(key: Bytes)
      requires Valid()
      modifies this`keys, this`start, this`pending
      ensures Valid() && pending == old(pending) + [key] && groups == old(groups)
    {
      AddPending(keys, start, pending, key);
      start := start + [|keys|];
      keys := keys + key;
      pending := pending + [key];
    }

    method GenerateFilter()
      requires Valid()
      modifies this
      ensures Valid() && pending == [] && groups == old(groups) + [old(pending)]
    {
      hide FiltersOk, PendingOk, IsFilterOf;
      CountsAgree();
      var numKeys := |start|;
      ghost var result0, offsets0 := result, filterOffsets;
      if numKeys == 0 {
        filterOffsets := filterOffsets + [|result|];
        AddGroup(policy, result0, result, offsets0, groups, []);
        groups := groups + [[]];
        return;
      }
      var tmp := SplitKeys(keys, start, pending);
      filterOffsets := filterOffsets + [|result|];
      result := CreateFilter(policy, tmp, result);
      AddGroup(policy, result0, result, offsets0, groups, pending);
      groups := groups + [pending];
      Reset();
    }

    method Reset()
      modifies this`keys, this`start, this`pending
      ensures keys == [] && start == [] && pending == [] && PendingOk(keys, start, pending)
    {
      keys, start, pending := [], [], [];
    }

    /** The filters, their offsets, the offset of the offsets, and the encoding parameter. */
    method Finish() returns (contents: Bytes)
      requires Valid()
      modifies this
      ensures groups == if old(pending) == [] then old(groups) else old(groups) + [old(pending)]
      ensures |contents| < TWO_32 ==> FilterBlockOk(policy, contents, groups)
    {
      hide FiltersOk, PendingOk;
      CountsAgree();
      if start != [] {
        GenerateFilter();
        CountsAgree();
      }
      contents := result + PutOffsets(filterOffsets + [|result|]) + [BASE_LG];
      FinishedOk(policy, result, filterOffsets, groups);
    }
  }

  function PutOffsets(offsets: seq<nat>): Bytes {
    if InWidth(offsets) then Fixed32Array(offsets) else seq(4 * |offsets|, i => 0)
  }

  /** A finished filter block: filters, offsets, and the offset of the offsets, which also ends the last filter. */
  ghost predicate FilterBlockOk(p: Policy, contents: Bytes, groups: seq<seq<Bytes>>) {
    exists result, offsets :: FinishedFrom(p, contents, groups, result, offsets)
  }

  ghost predicate FinishedFrom(p: Policy, contents: Bytes, groups: seq<seq<Bytes>>, result: Bytes, offsets: seq<nat>) {
    && PolicyOk(p) && FiltersOk(p, result, offsets, groups) && InWidth(offsets + [|result|])
    && contents == result + Fixed32Array(offsets + [|result|]) + [BASE_LG]
  }

  lemma FinishedOk(p: Policy, result: Bytes, offsets: seq<nat>, groups: seq<seq<Bytes>>)
    requires PolicyOk(p) && FiltersOk(p, result, offsets, groups)
    ensures var contents := result + PutOffsets(offsets + [|result|]) + [BASE_LG];
      |contents| < TWO_32 ==> FilterBlockOk(p, contents, groups)
  {
    var contents := result + PutOffsets(offsets + [|result|]) + [BASE_LG];
    if |contents| < TWO_32 {
      forall j | 0 <= j < |offsets| + 1
        ensures (offsets + [|result|])[j] < TWO_32
      {
        assert j < |offsets| ==> GroupOk(p, result, offsets, groups, j);
      }
      assert FinishedFrom(p, contents, groups, result, offsets);
    }
  }

  lemma AddPending(keys: Bytes, start: seq<nat>, pending: seq<Bytes>, key: Bytes)
    requires PendingOk(keys, start, pending)
    ensures PendingOk(keys + key, start + [|keys|], pending + [key])
  {
    var keys', start' := keys + key, start + [|keys|];
    forall i | 0 <= i < |start'|
      ensures start'[i] <= EndOf(start', |keys'|, i) <= |keys'|
      ensures keys'[start'[i]..EndOf(start', |keys'|, i)] == (pending + [key])[i]
    {
      if i < |start| {
        assert EndOf(start', |keys'|, i) == EndOf(start, |keys|, i);
        assert keys'[start[i]..EndOf(start, |keys|, i)] == keys[start[i]..EndOf(start, |keys|, i)];
      }
    }
  }

  lemma PendingCount(keys: Bytes, start: seq<nat>, pending: seq<Bytes>)
    requires PendingOk(keys, start, pending)
    ensures |start| == |pending|
  {
  }

  lemma PendingKey(keys: Bytes, start: seq<nat>, pending: seq<Bytes>, i: nat)
    requires PendingOk(keys, start, pending) && i < |start|
    ensures var ends := start + [|keys|];
      ends[i] <= ends[i + 1] <= |keys| && keys[ends[i]..ends[i + 1]] == pending[i]
  {
    assert start[i] <= EndOf(start, |keys|, i) <= |keys|;
  }

  /** The loop that cuts the flattened keys apart. */
  method SplitKeys(keys: Bytes, start: seq<nat>, ghost pending: seq<Bytes>) returns (tmp: seq<Bytes>)
    requires PendingOk(keys, start, pending)
    ensures tmp == pending
  {
    hide PendingOk;
    PendingCount(keys, start, pending);
    var ends := start + [|keys|];
    tmp := [];
    var i := 0;
    while i < |start|
      invariant 0 <= i <= |start| && tmp == pending[..i]
    {
      PendingKey(keys, start, pending, i);
      tmp := tmp + [keys[ends[i]..ends[i + 1]]];
      i := i + 1;
    }
  }

  /** A new filter at the end leaves the earlier ones as they are. */
  lemma AddGroup(p: Policy, result: Bytes, result': Bytes, offsets: seq<nat>, groups: seq<seq<Bytes>>,
                 group: seq<Bytes>)
    requires FiltersOk(p, result, offsets, groups) && |result| <= |result'| && result'[..|result|] == result
    requires GroupFilter(p, group, result'[|result|..])
    ensures FiltersOk(p, result', offsets + [|result|], groups + [group])
  {
    var offsets', groups' := offsets + [|result|], groups + [group];
    forall i | 0 <= i < |groups'|
      ensures GroupOk(p, result', offsets', groups', i)
    {
      if i < |groups| {
        assert GroupOk(p, result, offsets, groups, i);
        var a, b := offsets[i], EndOf(offsets, |result|, i);
        assert EndOf(offsets', |result'|, i) == b;
        PrefixSlice(result', |result|, a, b);
      } else {
        assert result'[|result|..|result'|] == result'[|result|..];
      }
    }
  }

  /** FilterBlockReader: the constructor's checks and KeyMayMatch. */
  class FilterBlockReader {
    const policy: Policy
    const data: Bytes
    const offset: nat
    const num: nat
    const baseLg: nat

    predicate Valid() {
      num == 0 || (offset + 4 * num + 5 <= |data| && offset <= |data|)
    }

    constructor (policy: Policy, contents: Bytes)
      ensures Valid() && this.policy == policy && data == contents
      ensures num == 0 || (|contents| >= 5 && LastWord(contents) <= |contents| - 5 && offset == LastWord(contents)
                           && num == (|contents| - 5 - LastWord(contents)) / 4
                           && baseLg == contents[|contents| - 1] as nat)
      ensures |contents| >= 5 && LastWord(contents) <= |contents| - 5 ==>
                num == (|contents| - 5 - LastWord(contents)) / 4
    {
      this.policy := policy;
      data := contents;
      var n := |contents|;
      if n < 5 {
        offset, num, baseLg := 0, 0, 0;
      } else {
        baseLg := contents[n - 1];
        var lastWord := LastWord(contents);
        if lastWord > n - 5 {
          offset, num := 0, 0;
        } else {
          offset := lastWord;
          num := (n - 5 - lastWord) / 4;
        }
      }
    }

    /** Errors count as potential matches. */
    method KeyMayMatch(blockOffset: nat, key: Bytes) returns (r: bool)
      requires Valid()
      ensures r == FilterMayMatch(policy, data, offset, num, FilterIndex(blockOffset, baseLg), key)
    {
      hide FilterIndex, FromLittleEndian;
      var index := FilterIndex(blockOffset, baseLg);
      if index < num {
        var start := DecodeFixed32(data[offset + index * 4..]);
        var limit := DecodeFixed32(data[offset + index * 4 + 4..]);
        if start <= limit && limit <= offset {
          r := Bloom.KeyMayMatch(policy, key, data[start..limit]);
          return;
        } else if start == limit {
          return false;
        }
      }
      return true;
    }
  }

  /** `x >> n`. */
  function ShiftRight(x: nat, n: nat): nat {
    if n == 0 then x else ShiftRight(x / 2, n - 1)
  }

  function LastWord(contents: Bytes): nat
    requires |contents| >= 5
  {
    DecodeFixed32(contents[|contents| - 5..])
  }

  function FilterIndex(blockOffset: nat, baseLg: nat): nat {
    ShiftRight(blockOffset, baseLg)
  }

  ghost predicate FilterMayMatch(p: Policy, data: Bytes, offset: nat, num: nat, index: nat, key: Bytes)
    requires num == 0 || (offset + 4 * num + 5 <= |data| && offset <= |data|)
  {
    index < num ==>
      var at := offset + index * 4;
      var start, limit := DecodeFixed32(data[at..]), DecodeFixed32(data[at + 4..]);
      if start <= limit && limit <= offset then MayMatch(p, key, data[start..limit]) else start != limit
  }

  /** The answer for a key of a group: each of its probes selects a bit that a key of the group selects. */
  ghost predicate GroupMatches(p: Policy, keys: seq<Bytes>, key: Bytes) {
    var size := FilterBytes(p, |keys|);
    keys != [] && forall j :: 0 <= j < p.k ==> AnyHits(p, keys, size, BitPos(Probe(p, key, j), size))
  }

  lemma GroupFilterMatches(p: Policy, keys: seq<Bytes>, filter: Bytes, key: Bytes)
    requires PolicyOk(p) && GroupFilter(p, keys, filter)
    ensures MayMatch(p, key, filter) == GroupMatches(p, keys, key)
    ensures key in keys ==> MayMatch(p, key, filter)
  {
    hide AnyHits, IsFilterOf, MayMatch, BitPos, Probe;
    if keys == [] {
      TooShort(p, key);
    } else {
      FilterSize(p, keys, filter);
      MatchesIffProbesShared(p, keys, filter, key);
    }
  }

  lemma TooShort(p: Policy, key: Bytes)
    ensures !MayMatch(p, key, [])
  {
  }

  lemma FilterSize(p: Policy, keys: seq<Bytes>, filter: Bytes)
    requires IsFilterOf(p, keys, filter)
    ensures |filter| == FilterBytes(p, |keys|) + 1
  {
  }

  /**
   A lookup at a block offset gets the answer of the filter of its group: keys of the group may match, and any other
   key is refused unless its probes all meet bits of the group.
   */
  lemma KeysOfGroupMatch(p: Policy, contents: Bytes, groups: seq<seq<Bytes>>, blockOffset: nat, key: Bytes)
    requires |contents| < TWO_32 && FilterBlockOk(p, contents, groups)
    requires blockOffset / BASE < |groups|
    ensures |contents| >= 5 && LastWord(contents) <= |contents| - 5
    ensures var num, index := (|contents| - 5 - LastWord(contents)) / 4,
            FilterIndex(blockOffset, contents[|contents| - 1]);
      && LastWord(contents) + 4 * num + 5 <= |contents|
      && FilterMayMatch(p, contents, LastWord(contents), num, index, key)
         == GroupMatches(p, groups[blockOffset / BASE], key)
      && (key in groups[blockOffset / BASE] ==> FilterMayMatch(p, contents, LastWord(contents), num, index, key))
  {
    hide FromLittleEndian, LittleEndian, Fixed32Array, FiltersOk, MayMatch, GroupFilter, GroupMatches;
    var result: Bytes, offsets: seq<nat> :| FinishedFrom(p, contents, groups, result, offsets);
    var words, index := offsets + [|result|], blockOffset / BASE;
    GroupIsOk(p, result, offsets, groups, index);
    Fixed32InArray(contents, result, words, [BASE_LG], |offsets|);
    Fixed32InArray(contents, result, words, [BASE_LG], index);
    Fixed32InArray(contents, result, words, [BASE_LG], index + 1);
    assert contents[|result| + 4 * |offsets|..] == contents[|contents| - 5..];
    ShiftByBase(blockOffset);
    var a, b := offsets[index], EndOf(offsets, |result|, index);
    assert contents[a..b] == result[a..b];
    GroupFilterMatches(p, groups[index], contents[a..b], key);
  }

  lemma GroupIsOk(p: Policy, result: Bytes, offsets: seq<nat>, groups: seq<seq<Bytes>>, i: nat)
    requires FiltersOk(p, result, offsets, groups) && i < |groups|
    ensures |offsets| == |groups| && GroupOk(p, result, offsets, groups, i)
  {
  }

  lemma ShiftTwo(x: nat, n: nat)
    ensures ShiftRight(x, n + 2) == ShiftRight(x / 4, n)
  {
    assert ShiftRight(x, n + 2) == ShiftRight(x / 2, n + 1) == ShiftRight(x / 2 / 2, n);
  }

  lemma ShiftByBase(x: nat)
    ensures ShiftRight(x, BASE_LG) == x / BASE
  {
    var a := x / 4;
    var b := a / 4;
    var c := b / 4;
    var d := c / 4;
    var e := d / 4;
    ShiftTwo(x, 9);
    ShiftTwo(a, 7);
    ShiftTwo(b, 5);
    ShiftTwo(c, 3);
    ShiftTwo(d, 1);
    assert ShiftRight(e, 1) == ShiftRight(e / 2, 0) == e / 2;
    assert d == x / 256 && e / 2 == d / 8;
  }

  lemma PrefixSlice(s: Bytes, n: nat, a: nat, b: nat)
    requires a <= b <= n <= |s|
    ensures s[..n][a..b] == s[a..b]
  {
    var t := s[..n];
    assert forall i :: 0 <= i < b - a ==> t[a..b][i] == s[a..b][i];
  }
}
