/** One filter for every 2 KB of table offsets. */
module FilterBlock {
  import opened ByteStrings
  import opened Coding
  import opened Bloom
  import opened BlockBuilder

  const FILTER_BASE_LG: nat := 11
  const FILTER_BASE: nat := 2048

  /** The filter at an index of a filter block lies between two of its offsets, and is empty if there is no
      key for it. */
  ghost predicate Holds(policy: Policy, result: Bytes, offsets: seq<nat>, sets: seq<seq<Bytes>>) {
    && |offsets| == |sets|
    && (forall i :: 0 <= i < |offsets| ==> offsets[i] <= End(result, offsets, i) <= |result|)
    && (forall i :: 0 <= i < |offsets| && sets[i] != [] ==>
        FilterOf(policy, sets[i], result[offsets[i]..End(result, offsets, i)]))
    && (forall i :: 0 <= i < |offsets| && sets[i] == [] ==> offsets[i] == End(result, offsets, i))
  }

  function End(result: Bytes, offsets: seq<nat>, i: nat): nat
    requires i < |offsets|
  {
    if i + 1 < |offsets| then offsets[i + 1] else |result|
  }

  /** A filter added at the end leaves the earlier ones where they were. */
  lemma {:induction false} FilterAdded(policy: Policy, result: Bytes, offsets: seq<nat>, sets: seq<seq<Bytes>>,
        filter: Bytes, keys: seq<Bytes>)
    requires Holds(policy, result, offsets, sets)
    requires if keys == [] then filter == [] else FilterOf(policy, keys, filter)
    ensures Holds(policy, result + filter, offsets + [|result|], sets + [keys])
  {
    hide FilterOf;
    var r, o, s := result + filter, offsets + [|result|], sets + [keys];
    forall i | 0 <= i < |o|
      ensures o[i] <= End(r, o, i) <= |r| && (s[i] != [] ==> FilterOf(policy, s[i], r[o[i]..End(r, o, i)]))
      ensures s[i] == [] ==> o[i] == End(r, o, i)
    {
      if i < |offsets| {
        assert End(r, o, i) == End(result, offsets, i);
        assert r[o[i]..End(r, o, i)] == result[offsets[i]..End(result, offsets, i)];
      } else {
        assert r[o[i]..End(r, o, i)] == filter;
      }
    }
  }

  class FilterBlockBuilder {
    const policy: Policy
    /** Keys not yet in a filter, joined, and where each starts. */
    var keys: Bytes
    var start: seq<nat>
    /** The filters so far, and where each starts. */
    var result: Bytes
    var filterOffsets: seq<nat>
    ghost var pending: seq<Bytes>
    ghost var sets: seq<seq<Bytes>>

    ghost predicate Valid()
      reads this
    {
      && policy.Valid()
      && Joined(keys, start, pending)
      && Holds(policy, result, filterOffsets, sets)
    }

    constructor (policy: Policy)
      requires policy.Valid()
      ensures Valid() && filterOffsets == [] && pending == [] && sets == [] && this.policy == policy
    {
      this.policy := policy;
      keys, start, result, filterOffsets, pending, sets := [], [], [], [], [], [];
    }

    /** Makes the filters of the offsets before this block's. */
    method StartBlock(blockOffset: nat)
      requires Valid() && blockOffset / FILTER_BASE >= |filterOffsets|
      modifies this
      ensures Valid() && |filterOffsets| == |sets| == blockOffset / FILTER_BASE >= |old(sets)|
      ensures if |sets| == |old(sets)| then sets == old(sets) && pending == old(pending)
              else pending == [] && sets[..|old(sets)| + 1] == old(sets) + [old(pending)]
    {
      var index := blockOffset / FILTER_BASE;
      while index > |filterOffsets|
        invariant Valid() && |filterOffsets| <= index
        invariant if |sets| == |old(sets)| then sets == old(sets) && pending == old(pending)
                  else |sets| > |old(sets)| && pending == [] && sets[..|old(sets)| + 1] == old(sets) + [old(pending)]
        decreases index - |filterOffsets|
      {
        GenerateFilter();
      }
    }

    method AddKey(key: Bytes)
      requires Valid()
      modifies this
      ensures Valid() && pending == old(pending) + [key] && sets == old(sets) && filterOffsets == old(filterOffsets)
    {
      JoinedMore(keys, start, pending, key);
      start := start + [|keys|];
      keys := keys + key;
      pending := pending + [key];
    }

    /** Makes the last filter and appends the array of offsets. */
    method Finish() returns (contents: Bytes, ghost filters: Bytes)
      requires Valid()
      modifies this
      ensures IsFilterBlock(contents, policy, sets, filters, filterOffsets) && contents == result
      ensures sets == if old(pending) == [] then old(sets) else old(sets) + [old(pending)]
    {
      hide FilterOf, Holds;
      if start != [] {
        GenerateFilter();
      }
      filters := result;
      ghost var before, made := filterOffsets, sets;
      var arrayOffset := |result|;
      for i := 0 to |filterOffsets|
        invariant filterOffsets == before && sets == made && result == filters + Fixed32s(filterOffsets[..i])
      {
        assert filterOffsets[..i + 1][..i] == filterOffsets[..i];
        result := result + EncodeFixed32(filterOffsets[i] % TWO_32);
      }
      assert filterOffsets[..|filterOffsets|] == filterOffsets;
      result := result + EncodeFixed32(arrayOffset % TWO_32);
      result := result + [FILTER_BASE_LG as Byte];
      contents := result;
    }

    /** The list of keys, cut out of the joined ones. */
    method KeyList() returns (tmp: seq<Bytes>)
      requires Joined(keys, start, pending)
      ensures tmp == pending
    {
      var ends := start + [|keys|];
      tmp := [];
      for i := 0 to |start|
        invariant tmp == pending[..i]
      {
        tmp := tmp + [keys[ends[i]..ends[i + 1]]];
      }
    }

    method GenerateFilter()
      requires Valid()
      modifies this
      ensures Valid() && pending == [] && sets == old(sets) + [old(pending)]
      ensures |filterOffsets| == |old(filterOffsets)| + 1
    {
      hide FilterOf, Holds;
      if start == [] {
        FilterAdded(policy, result, filterOffsets, sets, [], []);
        assert result + [] == result;
        filterOffsets := filterOffsets + [|result|];
        sets := sets + [[]];
        return;
      }
      var tmp := KeyList();
      var r := CreateFilter(policy, tmp, result);
      assert r == result + r[|result|..];
      FilterAdded(policy, result, filterOffsets, sets, r[|result|..], pending);
      filterOffsets := filterOffsets + [|result|];
      result := r;
      sets := sets + [pending];
      keys, start, pending := [], [], [];
    }
  }

  /** A finished filter block: filters, where each starts, where those numbers start, and the
      logarithm of the span of one filter. */
  ghost predicate IsFilterBlock(contents: Bytes, policy: Policy, sets: seq<seq<Bytes>>, result: Bytes,
        offsets: seq<nat>) {
    && Holds(policy, result, offsets, sets)
    && contents == result + Fixed32s(offsets) + EncodeFixed32(|result| % TWO_32) + [FILTER_BASE_LG as Byte]
  }

  /** The keys, one after another, and where each starts. */
  ghost predicate Joined(keys: Bytes, start: seq<nat>, list: seq<Bytes>) {
    && |start| == |list|
    && (forall i :: 0 <= i < |start| ==> start[i] <= EndOfKey(keys, start, i) <= |keys|)
    && (forall i :: 0 <= i < |start| ==> keys[start[i]..EndOfKey(keys, start, i)] == list[i])
  }

  function EndOfKey(keys: Bytes, start: seq<nat>, i: nat): nat
    requires i < |start|
  {
    if i + 1 < |start| then start[i + 1] else |keys|
  }

  lemma {:induction false} JoinedMore(keys: Bytes, start: seq<nat>, list: seq<Bytes>, key: Bytes)
    requires Joined(keys, start, list)
    ensures Joined(keys + key, start + [|keys|], list + [key])
  {
    var k, s, l := keys + key, start + [|keys|], list + [key];
    forall i | 0 <= i < |s|
      ensures s[i] <= EndOfKey(k, s, i) <= |k| && k[s[i]..EndOfKey(k, s, i)] == l[i]
    {
      if i < |start| {
        assert EndOfKey(k, s, i) == EndOfKey(keys, start, i);
        assert k[s[i]..EndOfKey(k, s, i)] == keys[start[i]..EndOfKey(keys, start, i)];
      } else {
        assert k[s[i]..EndOfKey(k, s, i)] == key;
      }
    }
  }

  /** What a reader finds in the last bytes: where the offsets start, how many there are, and
      the logarithm; nothing if the bytes are too few. */
  datatype Layout = Layout(arrayOffset: nat, num: nat, baseLg: nat)

  function Open(contents: Bytes): Layout {
    var n := |contents|;
    if n < 5 then Layout(0, 0, 0)
    else
      var baseLg := contents[n - 1] as nat;
      var lastWord := FixedValue(contents[n - 5..n - 1]);
      if lastWord > n - 5 then Layout(0, 0, baseLg)
      else Layout(lastWord, (n - 5 - lastWord) / 4, baseLg)
  }

  function WordAt(contents: Bytes, at: nat): nat
    requires at + 4 <= |contents|
  {
    FixedValue(contents[at..at + 4])
  }

  /** A key that may be in the block at this offset; errors count as matches. */
  method KeyMayMatch(policy: Policy, contents: Bytes, blockOffset: nat, key: Bytes) returns (r: bool)
    ensures r <==> Matches(policy, contents, blockOffset, key)
  {
    var l := Open(contents);
    var index := blockOffset / Power(2, l.baseLg);
    if index < l.num {
      var at := l.arrayOffset + 4 * index;
      var start, limit := WordAt(contents, at), WordAt(contents, at + 4);
      if start <= limit && limit <= l.arrayOffset {
        r := Bloom.KeyMayMatch(policy, key, contents[start..limit]);
        return;
      } else if start == limit {
        return false;
      }
    }
    r := true;
  }

  ghost predicate Matches(policy: Policy, contents: Bytes, blockOffset: nat, key: Bytes) {
    var l := Open(contents);
    var index := blockOffset / Power(2, l.baseLg);
    index < l.num ==>
      var start, limit := WordAt(contents, l.arrayOffset + 4 * index), WordAt(contents, l.arrayOffset + 4 * index + 4);
      if start <= limit && limit <= l.arrayOffset then MayMatch(policy, key, contents[start..limit]) else start != limit
  }

  lemma {:induction false} OpensBuilt(contents: Bytes, policy: Policy, sets: seq<seq<Bytes>>, result: Bytes,
        offsets: seq<nat>)
    requires IsFilterBlock(contents, policy, sets, result, offsets) && |contents| < TWO_32
    ensures Open(contents) == Layout(|result|, |offsets|, FILTER_BASE_LG)
  {
    hide Holds, Fixed32s, EncodeFixed32, FixedValue;
    var n := |contents|;
    assert contents[n - 5..n - 1] == EncodeFixed32(|result| % TWO_32);
  }

  /** The offsets are followed by the place where they start, the end of the last filter. */
  lemma {:induction false} WordsBuilt(contents: Bytes, policy: Policy, sets: seq<seq<Bytes>>, result: Bytes,
        offsets: seq<nat>, i: nat)
    requires IsFilterBlock(contents, policy, sets, result, offsets) && |contents| < TWO_32 && i <= |offsets|
    ensures |result| + 4 * i + 4 <= |contents|
    ensures WordAt(contents, |result| + 4 * i) == if i < |offsets| then offsets[i] else |result|
  {
    hide FilterOf, Fixed32s, EncodeFixed32, FixedValue;
    var at := |result| + 4 * i;
    var words := Fixed32s(offsets);
    if i < |offsets| {
      assert contents[at..at + 4] == words[4 * i..4 * i + 4];
      WordOf(offsets, i);
      assert offsets[i] <= |result|;
    } else {
      assert contents[at..at + 4] == EncodeFixed32(|result| % TWO_32);
    }
  }

  lemma {:induction false} FilterAt(contents: Bytes, policy: Policy, sets: seq<seq<Bytes>>, result: Bytes,
        offsets: seq<nat>, i: nat)
    requires IsFilterBlock(contents, policy, sets, result, offsets)
    ensures |offsets| == |sets|
    ensures i < |sets| ==> var end := End(result, offsets, i);
      && offsets[i] <= end <= |result| <= |contents| && contents[offsets[i]..end] == result[offsets[i]..end]
      && end == (if i + 1 < |offsets| then offsets[i + 1] else |result|) && (sets[i] == [] ==> offsets[i] == end)
  {
    hide FilterOf, Fixed32s, EncodeFixed32;
  }

  lemma {:induction false} EmptyDenies(policy: Policy, key: Bytes)
    ensures !MayMatch(policy, key, [])
  {
  }

  /** What decides, given where the filter lies. */
  lemma {:induction false} MatchesFilter(policy: Policy, contents: Bytes, blockOffset: nat, key: Bytes, start: nat,
        limit: nat)
    requires var l, i := Open(contents), blockOffset / 2048;
      && l.baseLg == FILTER_BASE_LG && i < l.num && start <= limit <= l.arrayOffset
      && WordAt(contents, l.arrayOffset + 4 * i) == start && WordAt(contents, l.arrayOffset + 4 * i + 4) == limit
    requires limit <= |contents|
    ensures Matches(policy, contents, blockOffset, key) <==> MayMatch(policy, key, contents[start..limit])
  {
    hide Open, WordAt, MayMatch, Power;
    PowerOfTwo();
  }

  lemma {:induction false} MatchesBehind(policy: Policy, contents: Bytes, blockOffset: nat, key: Bytes)
    requires Open(contents).baseLg == FILTER_BASE_LG && blockOffset / 2048 >= Open(contents).num
    ensures Matches(policy, contents, blockOffset, key)
  {
    hide Open, WordAt, MayMatch, Power;
    PowerOfTwo();
  }

  /** A built filter block denies every key where none was added, and otherwise those that the filter for the
      keys added denies; it denies none behind the last filter. */
  lemma {:induction false} MatchesIff(contents: Bytes, policy: Policy, sets: seq<seq<Bytes>>, result: Bytes,
        offsets: seq<nat>, blockOffset: nat, key: Bytes)
    requires IsFilterBlock(contents, policy, sets, result, offsets) && |contents| < TWO_32
    ensures var i := blockOffset / 2048;
      Matches(policy, contents, blockOffset, key) <==>
        i < |sets| ==> sets[i] != [] && MayMatch(policy, key, result[offsets[i]..End(result, offsets, i)])
  {
    var i := blockOffset / 2048;
    FilterAt(contents, policy, sets, result, offsets, i);
    hide FilterOf, Fixed32s, Open, WordAt, EncodeFixed32, MayMatch, Power, Holds, IsFilterBlock, End, Matches;
    OpensBuilt(contents, policy, sets, result, offsets);
    EmptyDenies(policy, key);
    if i < |sets| {
      WordsBuilt(contents, policy, sets, result, offsets, i);
      WordsBuilt(contents, policy, sets, result, offsets, i + 1);
      MatchesFilter(policy, contents, blockOffset, key, offsets[i], End(result, offsets, i));
    } else {
      MatchesBehind(policy, contents, blockOffset, key);
    }
  }

  /** The filter block never denies a key added for a block at this offset. */
  lemma {:induction false} NeverDenies(contents: Bytes, policy: Policy, sets: seq<seq<Bytes>>, result: Bytes,
        offsets: seq<nat>,
                    blockOffset: nat, n: nat)
    requires policy.Valid() && IsFilterBlock(contents, policy, sets, result, offsets) && |contents| < TWO_32
    requires blockOffset / FILTER_BASE < |sets| && n < |sets[blockOffset / FILTER_BASE]|
    ensures Matches(policy, contents, blockOffset, sets[blockOffset / FILTER_BASE][n])
  {
    hide FilterOf, MayMatch, Fixed32s, Open, WordAt, EncodeFixed32;
    var i := blockOffset / FILTER_BASE;
    OpensBuilt(contents, policy, sets, result, offsets);
    PowerOfTwo();
    WordsBuilt(contents, policy, sets, result, offsets, i);
    WordsBuilt(contents, policy, sets, result, offsets, i + 1);
    var filter := result[offsets[i]..End(result, offsets, i)];
    assert contents[offsets[i]..End(result, offsets, i)] == filter;
    NoFalseNegatives(policy, sets[i], filter, n);
  }

  lemma {:induction false} PowerOfTwo()
    ensures Power(2, FILTER_BASE_LG) == FILTER_BASE
  {
  }
}
