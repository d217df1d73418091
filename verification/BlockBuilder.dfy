/** Blocks of prefix-compressed entries, and the builder that appends to one. */
module BlockBuilder {
  import opened ByteStrings
  import opened Coding

  /** An entry and whether its key is stored in full, as a restart point. */
  datatype Item = Item(key: Bytes, value: Bytes, restart: bool)

  ghost predicate AllFit(items: seq<Item>) {
    forall i {:trigger items[i]} :: 0 <= i < |items| ==> |items[i].key| < TWO_32 && |items[i].value| < TWO_32
  }

  function Shared(items: seq<Item>, i: nat): (n: nat)
    requires i < |items|
    ensures n <= |items[i].key|
  {
    if i == 0 || items[i].restart then 0 else Common(items[i - 1].key, items[i].key)
  }

  /** A key is stored in full at a restart point, and otherwise without the longest beginning that it shares
      with the key before it. */
  lemma {:induction false} SharedIsLongest(items: seq<Item>, i: nat)
    requires 0 < i < |items|
    ensures var n, last, key := Shared(items, i), items[i - 1].key, items[i].key;
      if items[i].restart then n == 0
      else n <= |last| && last[..n] == key[..n] && (n == |last| || n == |key| || last[n] != key[n])
  {
    hide Common;
  }

  /** The three lengths, the part of the key not shared, and the value. */
  function EntryBytes(shared: nat, it: Item): (b: Bytes)
    requires shared <= |it.key|
    ensures |b| >= 3
  {
    Varint(shared) + Varint(|it.key| - shared) + Varint(|it.value|) + it.key[shared..] + it.value
  }

  function Buffer(items: seq<Item>): (b: Bytes)
    ensures |b| >= 3 * |items|
  {
    if items == [] then []
    else
      var n := |items| - 1;
      Buffer(items[..n]) + EntryBytes(Shared(items, n), items[n])
  }

  /** Where entry `i` starts. */
  function Offset(items: seq<Item>, i: nat): nat
    requires i <= |items|
  {
    |Buffer(items[..i])|
  }

  /** Entries that start a restart block, in order; the first entry always does. */
  ghost predicate RestartsAt(items: seq<Item>, at: seq<nat>) {
    && at != [] && at[0] == 0
    && (forall k :: 0 <= k < |at| ==> at[k] == 0 || at[k] < |items|)
    && (forall k :: 0 <= k < |at| && at[k] < |items| ==> items[at[k]].restart)
    && (forall j, k :: 0 <= j < k < |at| ==> at[j] < at[k])
  }

  /** The numbers as 32-bit words. */
  function Fixed32s(ns: seq<nat>): (b: Bytes)
    ensures |b| == 4 * |ns|
  {
    if ns == [] then [] else Fixed32s(ns[..|ns| - 1]) + EncodeFixed32(ns[|ns| - 1] % TWO_32)
  }

  lemma {:induction false} WordOf(ns: seq<nat>, k: nat)
    requires k < |ns|
    ensures Fixed32s(ns)[4 * k..4 * k + 4] == EncodeFixed32(ns[k] % TWO_32)
  {
    hide EncodeFixed32;
    var n := |ns| - 1;
    if k == n {
      assert Fixed32s(ns)[4 * k..4 * k + 4] == EncodeFixed32(ns[k] % TWO_32);
    } else {
      WordOf(ns[..n], k);
      assert Fixed32s(ns)[4 * k..4 * k + 4] == Fixed32s(ns[..n])[4 * k..4 * k + 4];
    }
  }

  function Offsets(items: seq<Item>, at: seq<nat>): (r: seq<nat>)
    requires forall k :: 0 <= k < |at| ==> at[k] <= |items|
    ensures |r| == |at|
  {
    seq(|at|, k requires 0 <= k < |at| => Offset(items, at[k]))
  }

  /** A finished block: entries, restart points, and their number. */
  ghost predicate IsBlock(block: Bytes, items: seq<Item>, at: seq<nat>) {
    && |block| < TWO_32 && AllFit(items)
    && RestartsAt(items, at)
    && block == Buffer(items) + Fixed32s(Offsets(items, at)) + EncodeFixed32(|at| % TWO_32)
  }

  lemma {:induction false} BufferGrows(items: seq<Item>, i: nat)
    requires i <= |items|
    ensures Buffer(items[..i]) <= Buffer(items)
    ensures i < |items| ==> |Buffer(items[..i])| + 3 <= |Buffer(items)|
    decreases |items|
  {
    hide EntryBytes, Shared;
    var n := |items| - 1;
    if i == |items| {
      assert items[..i] == items;
    } else {
      BufferGrows(items[..n], i);
      assert items[..n][..i] == items[..i];
    }
  }

  lemma {:induction false} OffsetsAscend(items: seq<Item>, i: nat, j: nat)
    requires i <= |items| && j <= |items|
    ensures i < j <==> Offset(items, i) < Offset(items, j)
  {
    if i < j {
      assert items[..j][..i] == items[..i];
      BufferGrows(items[..j], i);
    } else {
      assert items[..i][..j] == items[..j];
      BufferGrows(items[..i], j);
    }
  }

  /** Entry `i` stands at its offset, followed by the later ones. */
  lemma {:induction false} EntryAt(items: seq<Item>, i: nat)
    requires i < |items|
    ensures Offset(items, i) < |Buffer(items)|
    ensures EntryBytes(Shared(items, i), items[i]) <= Buffer(items)[Offset(items, i)..]
    ensures Offset(items, i + 1) == Offset(items, i) + |EntryBytes(Shared(items, i), items[i])|
  {
    hide EntryBytes;
    var front := items[..i + 1];
    assert front[..i] == items[..i];
    BufferGrows(items, i + 1);
    var e := EntryBytes(Shared(items, i), items[i]);
    assert Shared(front, i) == Shared(items, i);
    assert Buffer(front) == Buffer(items[..i]) + e;
    assert Buffer(front)[Offset(items, i)..] == e;
  }

  /** No other entry is a restart point. */
  ghost predicate Listed(items: seq<Item>, at: seq<nat>) {
    forall i :: 0 <= i < |items| && items[i].restart ==> i in at
  }

  /** Every restart block but the last holds `interval` entries, the last one `counter`. */
  ghost predicate Stepped(at: seq<nat>, n: nat, interval: nat, counter: nat) {
    && at != [] && counter == n - at[|at| - 1] <= interval
    && forall k :: 0 < k < |at| ==> at[k] == at[k - 1] + interval
  }

  ghost predicate Spaced(items: seq<Item>, at: seq<nat>, interval: nat, counter: nat) {
    RestartsAt(items, at) && Listed(items, at) && Stepped(at, |items|, interval, counter)
  }

  class BlockBuilder {
    const interval: nat
    var buffer: Bytes
    var restarts: seq<nat>
    /** Entries since the last restart. */
    var counter: nat
    var finished: bool
    var lastKey: Bytes
    ghost var items: seq<Item>
    ghost var at: seq<nat>

    ghost predicate Valid()
      reads this
    {
      && interval >= 1
      && Spaced(items, at, interval, counter) && restarts == Offsets(items, at)
      && lastKey == (if items == [] then [] else items[|items| - 1].key)
      && AllFit(items)
      && (!finished ==> buffer == Buffer(items))
    }

    constructor (interval: nat)
      requires interval >= 1
      ensures Valid() && !finished && items == [] && this.interval == interval
    {
      this.interval := interval;
      buffer, restarts, counter, finished, lastKey := [], [0], 0, false, [];
      items, at := [], [0];
    }

    /** Appends an entry; one in `interval` keys is stored in full. */
    method Add(key: Bytes, value: Bytes)
      requires Valid() && !finished && |key| < TWO_32 && |value| < TWO_32
      modifies this
      ensures Valid() && !finished
      ensures |items| == |old(items)| + 1 && items[..|old(items)|] == old(items)
      ensures items[|old(items)|].key == key && items[|old(items)|].value == value
    {
      hide EntryBytes, Buffer, Common, Spaced, RestartsAt, Offsets;
      var shared := 0;
      ghost var restart := counter == interval;
      ghost var it := Item(key, value, items == [] || restart);
      ItemAdded(items, at, it, interval, counter);
      if counter < interval {
        shared := SharedWithLast(key);
      } else {
        restarts := restarts + [|buffer|];
        counter := 0;
      }
      AppendEntry(shared, key, value, it);
      assert lastKey[..shared] == key[..shared] && key[..shared] + key[shared..] == key;
      lastKey := lastKey[..shared] + key[shared..];
      counter := counter + 1;
      at := if restart then at + [|items|] else at;
      items := items + [it];
    }

    method AppendEntry(shared: nat, key: Bytes, value: Bytes, ghost it: Item)
      requires shared <= |key| && it.key == key && it.value == value
      modifies `buffer
      ensures buffer == old(buffer) + EntryBytes(shared, it)
    {
      EntryAppended(buffer, shared, it);
      hide EntryBytes, Varint;
      buffer := buffer + Varint(shared);
      buffer := buffer + Varint(|key| - shared);
      buffer := buffer + Varint(|value|);
      buffer := buffer + key[shared..];
      buffer := buffer + value;
    }

    /** How much of the key the last one already has. */
    method SharedWithLast(key: Bytes) returns (shared: nat)
      ensures shared == Common(lastKey, key)
    {
      shared := 0;
      var least := if |lastKey| < |key| then |lastKey| else |key|;
      while shared < least && lastKey[shared] == key[shared]
        invariant shared <= least && lastKey[..shared] == key[..shared]
      {
        shared := shared + 1;
      }
      CommonIs(lastKey, key, shared);
    }

    /** Appends the restart array and its length. */
    method Finish() returns (block: Bytes)
      requires Valid() && !finished
      modifies this
      ensures Valid() && finished && block == buffer
      ensures items == old(items) && (|block| < TWO_32 ==> IsBlock(block, items, at))
    {
      hide Buffer, Offsets, RestartsAt;
      AppendRestarts();
      buffer := buffer + EncodeFixed32(|restarts| % TWO_32);
      finished := true;
      block := buffer;
    }

    method AppendRestarts()
      modifies `buffer
      ensures buffer == old(buffer) + Fixed32s(restarts)
    {
      var i := 0;
      while i < |restarts|
        invariant i <= |restarts| && buffer == old(buffer) + Fixed32s(restarts[..i])
      {
        assert restarts[..i + 1][..i] == restarts[..i];
        buffer := buffer + EncodeFixed32(restarts[i] % TWO_32);
        i := i + 1;
      }
      assert restarts[..i] == restarts;
    }
  }

  lemma {:induction false} EntryAppended(buffer: Bytes, shared: nat, it: Item)
    requires shared <= |it.key|
    ensures buffer + Varint(shared) + Varint(|it.key| - shared) + Varint(|it.value|) + it.key[shared..] + it.value
         == buffer + EntryBytes(shared, it)
  {
    hide Varint;
  }

  /** Adding an entry changes nothing about those before it. */
  lemma {:induction false} ItemAdded(items: seq<Item>, at: seq<nat>, it: Item, interval: nat, counter: nat)
    requires interval >= 1 && Spaced(items, at, interval, counter)
    requires it.restart <==> items == [] || counter == interval
    ensures counter <= interval
    ensures var at' := if counter == interval then at + [|items|] else at;
      && Spaced(items + [it], at', interval, if counter == interval then 1 else counter + 1)
      && Offsets(items + [it], at') ==
          if counter == interval then Offsets(items, at) + [|Buffer(items)|] else Offsets(items, at)
    ensures Buffer(items + [it]) == Buffer(items) + EntryBytes(Shared(items + [it], |items|), it)
    ensures Shared(items + [it], |items|) ==
            if counter == interval then 0
            else if items == [] then Common([], it.key)
            else Common(items[|items| - 1].key, it.key)
  {
    hide EntryBytes, Common, Offsets, Spaced;
    assert (items + [it])[..|items|] == items;
    SpacedKept(items, at, it, interval, counter);
    OffsetsKept(items, at, it);
  }

  lemma {:induction false} SpacedKept(items: seq<Item>, at: seq<nat>, it: Item, interval: nat, counter: nat)
    requires interval >= 1 && Spaced(items, at, interval, counter)
    requires it.restart <==> items == [] || counter == interval
    ensures Spaced(items + [it], if counter == interval then at + [|items|] else at, interval,
              if counter == interval then 1 else counter + 1)
    ensures counter <= interval && forall k :: 0 <= k < |at| ==> at[k] <= |items|
  {
    hide RestartsAt, Listed, Stepped;
    StepsKept(at, |items|, interval, counter);
    RestartsKept(items, at, it, counter == interval);
    RestartsListed(items, at, if counter == interval then at + [|items|] else at, it);
  }

  lemma {:induction false} StepsKept(at: seq<nat>, n: nat, interval: nat, counter: nat)
    requires interval >= 1 && Stepped(at, n, interval, counter)
    ensures Stepped(if counter == interval then at + [n] else at, n + 1, interval,
              if counter == interval then 1 else counter + 1)
    ensures counter <= interval && (counter == interval ==> n > 0)
  {
  }

  lemma {:induction false} RestartsKept(items: seq<Item>, at: seq<nat>, it: Item, restart: bool)
    requires RestartsAt(items, at) && (it.restart <==> items == [] || restart) && (restart ==> items != [])
    ensures RestartsAt(items + [it], if restart then at + [|items|] else at)
    ensures forall k :: 0 <= k < |at| ==> at[k] <= |items|
  {
  }

  lemma {:induction false} RestartsListed(items: seq<Item>, at: seq<nat>, at': seq<nat>, it: Item)
    requires RestartsAt(items, at) && at <= at' && (it.restart ==> items == [] || |items| in at') && Listed(items, at)
    ensures Listed(items + [it], at')
  {
    forall i | 0 <= i < |items + [it]| && (items + [it])[i].restart
      ensures i in at'
    {
      if i < |items| {
        assert items[i] == (items + [it])[i];
        var k :| 0 <= k < |at| && at[k] == i;
        assert at'[k] == i;
      } else if items == [] {
        assert at'[0] == 0;
      }
    }
  }

  lemma {:induction false} OffsetsKept(items: seq<Item>, at: seq<nat>, it: Item)
    requires forall k :: 0 <= k < |at| ==> at[k] <= |items|
    ensures Offsets(items + [it], at) == Offsets(items, at)
    ensures Offsets(items + [it], at + [|items|]) == Offsets(items, at) + [|Buffer(items)|]
  {
    hide Buffer;
    assert (items + [it])[..|items|] == items;
    forall k | 0 <= k < |at|
      ensures Offset(items + [it], at[k]) == Offset(items, at[k])
    {
      assert (items + [it])[..at[k]] == items[..at[k]];
    }
  }
}
