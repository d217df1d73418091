/** Building a table of blocks, an index of separators and a filter, and looking keys up. */
module Table {
  import opened ByteStrings
  import opened InternalKeys
  import opened Reads
  import opened Cursors
  import opened Coding
  import opened Separators
  import opened Bloom
  import FilterBlock
  import opened Format
  import opened TwoLevel
  import opened Lookup

  const BLOCK_TRAILER_SIZE: nat := 5

  /** The blocks written so far are the entries up to the last bound, in order, each at a
      handle of its own. */
  ghost predicate Laid(entries: seq<Entry>, handles: seq<Handle>, bounds: seq<nat>, blocks: map<Bytes, seq<Entry>>,
        offset: nat) {
    && |bounds| == |handles| + 1 && bounds[0] == 0
    && (forall i, j :: 0 <= i < j < |bounds| ==> bounds[i] < bounds[j])
    && (forall i :: 0 <= i < |bounds| ==> bounds[i] <= |entries|)
    && (forall i :: 0 <= i < |handles| ==>
        HasBlock(blocks, EncodeHandle(handles[i]), entries, bounds[i], bounds[i + 1]))
    && (forall i :: 0 <= i < |handles| ==> handles[i].offset < offset)
  }

  ghost predicate HasBlock(blocks: map<Bytes, seq<Entry>>, handle: Bytes, entries: seq<Entry>, lo: nat, hi: nat) {
    lo < hi <= |entries| && handle in blocks && blocks[handle] == entries[lo..hi]
  }

  /** The key is at or after the entries up to `hi` and before the rest; if it is not a key of
      the table, it is the earliest of a user key that the table does not hold. */
  ghost predicate Parts(entries: seq<Entry>, key: IKey, hi: nat) {
    && 0 < hi <= |entries|
    && !Before(key, entries[hi - 1].key)
    && (hi < |entries| ==> Before(key, entries[hi].key) && Separates(entries[hi - 1].key, key, entries[hi].key))
  }

  ghost predicate Indexed(entries: seq<Entry>, handles: seq<Handle>, bounds: seq<nat>, index: seq<Entry>) {
    && |bounds| == |handles| + 1 && |index| <= |handles|
    && forall i :: 0 <= i < |index| ==>
        index[i].value == EncodeHandle(handles[i]) && Parts(entries, index[i].key, bounds[i + 1])
  }

  // ----- what the builder leaves

  lemma {:induction false} VarintInjective(a: nat, x: Bytes, b: nat, y: Bytes)
    requires Varint(a) + x == Varint(b) + y
    ensures a == b && x == y
    decreases a
  {
    var l, r := Varint(a) + x, Varint(b) + y;
    assert l[0] == r[0];
    if a < 128 {
      assert b < 128 && l[1..] == x && r[1..] == y;
    } else {
      assert b >= 128;
      assert l[1..] == Varint(a / 128) + x && r[1..] == Varint(b / 128) + y;
      VarintInjective(a / 128, x, b / 128, y);
    }
  }

  lemma {:induction false} HandlesApart(g: Handle, h: Handle)
    requires EncodeHandle(g) == EncodeHandle(h)
    ensures g.offset == h.offset
  {
    hide Varint;
    VarintInjective(g.offset, Varint(g.size), h.offset, Varint(h.size));
  }

  /** A block written at a new handle. */
  lemma {:induction false} BlockLaid(entries: seq<Entry>, handles: seq<Handle>, bounds: seq<nat>,
        blocks: map<Bytes, seq<Entry>>, offset: nat, h: Handle, next: nat)
    requires Laid(entries, handles, bounds, blocks, offset) && bounds[|handles|] < |entries|
    requires h.offset == offset < next
    ensures Laid(entries, handles + [h], bounds + [|entries|],
        blocks[EncodeHandle(h) := entries[bounds[|handles|]..]], next)
  {
    hide EncodeHandle;
    var hs, bs, n := handles + [h], bounds + [|entries|], |handles|;
    var bl := blocks[EncodeHandle(h) := entries[bounds[n]..]];
    forall i | 0 <= i < |hs|
      ensures HasBlock(bl, EncodeHandle(hs[i]), entries, bs[i], bs[i + 1])
    {
      if i < n {
        assert HasBlock(blocks, EncodeHandle(handles[i]), entries, bounds[i], bounds[i + 1]);
        if EncodeHandle(hs[i]) == EncodeHandle(h) {
          HandlesApart(hs[i], h);
        }
      }
    }
  }

  /** More entries after those already written. */
  lemma {:induction false} EntryLaid(entries: seq<Entry>, handles: seq<Handle>, bounds: seq<nat>,
        blocks: map<Bytes, seq<Entry>>, offset: nat, e: Entry)
    requires Laid(entries, handles, bounds, blocks, offset)
    ensures Laid(entries + [e], handles, bounds, blocks, offset)
  {
    var es := entries + [e];
    forall i | 0 <= i < |handles|
      ensures HasBlock(blocks, EncodeHandle(handles[i]), es, bounds[i], bounds[i + 1])
    {
      assert HasBlock(blocks, EncodeHandle(handles[i]), entries, bounds[i], bounds[i + 1]);
      assert es[bounds[i]..bounds[i + 1]] == entries[bounds[i]..bounds[i + 1]];
    }
  }

  /** The index entry of a block waits for the first key of the next one. */
  ghost predicate Pending(entries: seq<Entry>, handles: seq<Handle>, bounds: seq<nat>, index: seq<Entry>,
        pending: bool) {
    && Indexed(entries, handles, bounds, index)
    && |index| == |handles| - (if pending then 1 else 0)
    && (pending <==> handles != [] && bounds[|handles|] == |entries|)
  }

  function IndexEntry(key: IKey, h: Handle): Entry {
    Entry(key, EncodeHandle(h))
  }

  /** The separator of the last block and the next key goes into the index. */
  lemma {:induction false} NextKeyIndexed(entries: seq<Entry>, handles: seq<Handle>, bounds: seq<nat>,
        blocks: map<Bytes, seq<Entry>>, offset: nat, index: seq<Entry>, pending: bool, e: Entry)
    requires Laid(entries, handles, bounds, blocks, offset) && Pending(entries, handles, bounds, index, pending)
    requires entries != [] ==> Before(entries[|entries| - 1].key, e.key)
    ensures pending ==> entries != [] && handles != []
    ensures var index' := if pending then
        index + [IndexEntry(InternalSeparator(entries[|entries| - 1].key, e.key), handles[|handles| - 1])]
      else index;
      Pending(entries + [e], handles, bounds, index', false)
  {
    hide EncodeHandle, InternalSeparator, HasBlock, Before, Separates;
    if pending {
      assert bounds[0] < bounds[|handles|];
      var last := entries[|entries| - 1].key;
      InternalSeparatorSeparates(last, e.key);
    }
    var index' := if pending then index +
        [IndexEntry(InternalSeparator(entries[|entries| - 1].key, e.key), handles[|handles| - 1])] else index;
    forall i | 0 <= i < |index'|
      ensures index'[i].value == EncodeHandle(handles[i]) && Parts(entries + [e], index'[i].key, bounds[i + 1])
    {
      if i < |index| {
        assert Parts(entries, index[i].key, bounds[i + 1]);
        assert bounds[i + 1] < |entries| by {
          assert i + 1 < |handles| ==> bounds[i + 1] < bounds[|handles|];
        }
      }
    }
  }

  /** At the end the last block is indexed by a successor of its last key. */
  lemma {:induction false} LastKeyIndexed(entries: seq<Entry>, handles: seq<Handle>, bounds: seq<nat>,
        index: seq<Entry>)
    requires Pending(entries, handles, bounds, index, true) && entries != []
    ensures Indexed(entries, handles, bounds,
        index + [IndexEntry(InternalSuccessor(entries[|entries| - 1].key), handles[|handles| - 1])])
  {
    hide EncodeHandle, InternalSuccessor, Parts;
    InternalSuccessorFollows(entries[|entries| - 1].key);
    LastParts(entries, InternalSuccessor(entries[|entries| - 1].key));
  }

  lemma {:induction false} LastParts(entries: seq<Entry>, key: IKey)
    requires entries != [] && !Before(key, entries[|entries| - 1].key)
    ensures Parts(entries, key, |entries|)
  {
  }

  lemma {:induction false} PartsOrder(entries: seq<Entry>, key: IKey, hi: nat, j: nat)
    requires Sorted(entries) && Parts(entries, key, hi) && j < |entries|
    ensures j < hi ==> !Before(key, entries[j].key)
    ensures hi <= j ==> Before(key, entries[j].key)
  {
    if j + 1 < hi {
      assert Before(entries[j].key, entries[hi - 1].key);
    } else if hi < j {
      assert Before(entries[hi].key, entries[j].key);
    }
  }

  /** Every index entry names its block and parts it from the rest. */
  ghost predicate Complete(entries: seq<Entry>, bounds: seq<nat>, blocks: map<Bytes, seq<Entry>>, index: seq<Entry>) {
    && |bounds| == |index| + 1 && bounds[0] == 0 && bounds[|index|] == |entries|
    && (forall i, j :: 0 <= i < j < |bounds| ==> bounds[i] < bounds[j])
    && (forall i :: 0 <= i < |index| ==> HasBlock(blocks, index[i].value, entries, bounds[i], bounds[i + 1]))
    && (forall i :: 0 <= i < |index| ==> Parts(entries, index[i].key, bounds[i + 1]))
  }

  lemma {:induction false} IndexAscends(entries: seq<Entry>, bounds: seq<nat>, blocks: map<Bytes, seq<Entry>>,
        index: seq<Entry>, i: nat, j: nat)
    requires Sorted(entries) && Complete(entries, bounds, blocks, index) && i < j < |index|
    ensures Before(index[i].key, index[j].key)
  {
    hide Parts;
    assert HasBlock(blocks, index[j].value, entries, bounds[j], bounds[j + 1]);
    PartsOrder(entries, index[i].key, bounds[i + 1], bounds[j]);
    PartsOrder(entries, index[j].key, bounds[j + 1], bounds[j]);
    Trichotomy(entries[bounds[j]].key, index[j].key);
  }

  /** The index separates the blocks, and the blocks in index order are the entries. */
  lemma {:induction false} FinishedTable(entries: seq<Entry>, bounds: seq<nat>, blocks: map<Bytes, seq<Entry>>,
        index: seq<Entry>)
    requires Sorted(entries) && Complete(entries, bounds, blocks, index)
    ensures WellIndexed(index, blocks) && Concat(index, blocks, |index|) == entries
  {
    hide Parts, Concat;
    forall i, j {:trigger Before(index[i].key, index[j].key)} | 0 <= i < j < |index|
      ensures Before(index[i].key, index[j].key)
    {
      IndexAscends(entries, bounds, blocks, index, i, j);
    }
    forall x | x in index
      ensures x.value in blocks
    {
      var i: nat :| i < |index| && index[i] == x;
      assert HasBlock(blocks, index[i].value, entries, bounds[i], bounds[i + 1]);
    }
    forall i | 0 <= i < |index|
      ensures Covers(index, blocks, i)
    {
      assert HasBlock(blocks, index[i].value, entries, bounds[i], bounds[i + 1]);
      BlockParted(entries, index[i].key, bounds[i + 1], bounds[i], bounds[i + 1]);
    }
    forall i, k | 0 <= i < k < |index|
      ensures TwoLevel.Precedes(index, blocks, i, k)
    {
      assert HasBlock(blocks, index[k].value, entries, bounds[k], bounds[k + 1]);
      BlockParted(entries, index[i].key, bounds[i + 1], bounds[k], bounds[k + 1]);
    }
    ConcatIs(entries, bounds, blocks, index, |index|);
    assert entries[..|entries|] == entries;
  }

  lemma {:induction false} BlockParted(entries: seq<Entry>, key: IKey, at: nat, lo: nat, hi: nat)
    requires Sorted(entries) && Parts(entries, key, at) && lo <= hi <= |entries|
    ensures hi <= at ==> forall e :: e in entries[lo..hi] ==> !Before(key, e.key)
    ensures at <= lo ==> forall e :: e in entries[lo..hi] ==> Before(key, e.key)
  {
    hide Parts;
    forall j | lo <= j < hi
      ensures hi <= at ==> !Before(key, entries[j].key)
      ensures at <= lo ==> Before(key, entries[j].key)
    {
      PartsOrder(entries, key, at, j);
    }
  }

  lemma {:induction false} ConcatIs(entries: seq<Entry>, bounds: seq<nat>, blocks: map<Bytes, seq<Entry>>,
        index: seq<Entry>, n: nat)
    requires Complete(entries, bounds, blocks, index) && n <= |index|
    requires forall x :: x in index ==> x.value in blocks
    ensures bounds[n] <= |entries| && Concat(index, blocks, n) == entries[..bounds[n]]
  {
    hide Parts;
    if n > 0 {
      ConcatIs(entries, bounds, blocks, index, n - 1);
      assert HasBlock(blocks, index[n - 1].value, entries, bounds[n - 1], bounds[n - 1 + 1]);
      assert entries[..bounds[n]] == entries[..bounds[n - 1]] + entries[bounds[n - 1]..bounds[n]];
    }
  }

  // ----- the filter

  /** The user's filter policy, applied to the user part of internal keys. */
  function InternalPolicy(policy: Policy): Policy {
    policy.(hash := k => policy.hash(UserPart(k)))
  }

  /** The key is, or will be, in the filter for this offset. */
  ghost predicate WillMatch(sets: seq<seq<Bytes>>, pending: seq<Bytes>, offset: nat, key: IKey) {
    var i := offset / FilterBlock.FILTER_BASE;
    if i < |sets| then Encode(key) in sets[i] else i == |sets| && Encode(key) in pending
  }

  ghost predicate Filtered(sets: seq<seq<Bytes>>, pending: seq<Bytes>, entries: seq<Entry>, handles: seq<Handle>,
        bounds: seq<nat>, offset: nat) {
    && |sets| == offset / FilterBlock.FILTER_BASE
    && |bounds| == |handles| + 1
    && (forall i, j :: 0 <= i < |handles| && bounds[i] <= j < bounds[i + 1] && j < |entries| ==>
        WillMatch(sets, pending, handles[i].offset, entries[j].key))
    && (forall j :: bounds[|handles|] <= j < |entries| ==> WillMatch(sets, pending, offset, entries[j].key))
  }

  lemma {:induction false} KeyFiltered(sets: seq<seq<Bytes>>, pending: seq<Bytes>, entries: seq<Entry>,
        handles: seq<Handle>, bounds: seq<nat>, offset: nat, e: Entry)
    requires Filtered(sets, pending, entries, handles, bounds, offset)
    requires forall i :: 0 <= i < |bounds| ==> bounds[i] <= |entries|
    ensures Filtered(sets, pending + [Encode(e.key)], entries + [e], handles, bounds, offset)
  {
    hide Encode;
    assert Encode(e.key) == (pending + [Encode(e.key)])[|pending|];
  }

  /** Filters generated meanwhile hold the keys that were pending. */
  lemma {:induction false} StillMatches(sets: seq<seq<Bytes>>, pending: seq<Bytes>, sets': seq<seq<Bytes>>,
        pending': seq<Bytes>, offset: nat, key: IKey)
    requires WillMatch(sets, pending, offset, key)
    requires if |sets'| == |sets| then sets' == sets && pending' == pending
             else |sets'| > |sets| && sets'[..|sets| + 1] == sets + [pending]
    ensures WillMatch(sets', pending', offset, key)
  {
    hide Encode;
    var i := offset / FilterBlock.FILTER_BASE;
    if |sets'| > |sets| {
      assert i <= |sets| && sets'[i] == sets'[..|sets| + 1][i];
    }
  }

  lemma {:induction false} BlockFiltered(sets: seq<seq<Bytes>>, pending: seq<Bytes>, sets': seq<seq<Bytes>>,
        pending': seq<Bytes>,
                      entries: seq<Entry>, handles: seq<Handle>, bounds: seq<nat>, offset: nat, h: Handle, next: nat)
    requires Filtered(sets, pending, entries, handles, bounds, offset) && h.offset == offset
    requires |sets'| == next / FilterBlock.FILTER_BASE
    requires if |sets'| == |sets| then sets' == sets && pending' == pending
             else |sets'| > |sets| && sets'[..|sets| + 1] == sets + [pending]
    ensures Filtered(sets', pending', entries, handles + [h], bounds + [|entries|], next)
  {
    hide WillMatch;
    var hs, bs := handles + [h], bounds + [|entries|];
    forall i, j | 0 <= i < |hs| && bs[i] <= j < bs[i + 1] && j < |entries|
      ensures WillMatch(sets', pending', hs[i].offset, entries[j].key)
    {
      StillMatches(sets, pending, sets', pending', hs[i].offset, entries[j].key);
    }
  }

  // ----- the builder

  /** A finished table: its index, the block at each handle, and the filter block. */
  datatype Table = Table(index: seq<Entry>, blocks: map<Bytes, seq<Entry>>, policy: Policy, filter: Option<Bytes>)

  ghost predicate Built(t: Table, entries: seq<Entry>, handles: seq<Handle>, bounds: seq<nat>) {
    && Sorted(entries) && Complete(entries, bounds, t.blocks, t.index) && |handles| == |t.index|
    && (forall i :: 0 <= i < |handles| ==> handles[i].Fits() && t.index[i].value == EncodeHandle(handles[i]))
    && (t.filter.Some? ==> KeysMatch(t.filter.value, t.policy, entries, handles, bounds))
  }

  class TableBuilder {
    /** Size of a finished block of these entries, and the size that ends a block. */
    const encodedSize: seq<Entry> -> nat
    const blockSize: nat
    const filter: FilterBlock.FilterBlockBuilder?
    var offset: nat
    var dataBlock: seq<Entry>
    var lastKey: IKey
    var pendingIndexEntry: bool
    var pendingHandle: Handle
    var index: seq<Entry>
    /** The blocks in the file, by handle. */
    var blocks: map<Bytes, seq<Entry>>
    ghost var entries: seq<Entry>
    ghost var handles: seq<Handle>
    ghost var bounds: seq<nat>

    ghost predicate Valid()
      reads this, filter
    {
      && Sorted(entries)
      && Laid(entries, handles, bounds, blocks, offset)
      && Pending(entries, handles, bounds, index, pendingIndexEntry)
      && dataBlock == entries[bounds[|handles|]..]
      && (entries != [] ==> lastKey == entries[|entries| - 1].key)
      && (pendingIndexEntry ==> pendingHandle == handles[|handles| - 1])
      && (forall i :: 0 <= i < |handles| ==> handles[i].size <= offset)
      && FilterValid()
    }

    ghost predicate FilterValid()
      reads this, filter
    {
      filter != null ==> filter.Valid() && Filtered(filter.sets, filter.pending, entries, handles, bounds, offset)
    }

    constructor (encodedSize: seq<Entry> -> nat, blockSize: nat, filter: FilterBlock.FilterBlockBuilder?)
      requires filter != null ==> filter.Valid() && filter.sets == [] && filter.pending == []
      modifies filter
      ensures Valid() && entries == [] && this.filter == filter
    {
      this.encodedSize, this.blockSize, this.filter := encodedSize, blockSize, filter;
      offset, dataBlock, lastKey, pendingIndexEntry := 0, [], IKey([], 0, Deletion), false;
      pendingHandle, index, blocks := Handle(0, 0), [], map[];
      entries, handles, bounds := [], [], [0];
      new;
      if filter != null {
        filter.StartBlock(0);
      }
    }

    /** Appends an entry; a full block is written out. */
    method Add(key: IKey, value: Bytes)
      requires Valid() && (entries != [] ==> Before(entries[|entries| - 1].key, key))
      modifies this, filter
      ensures Valid() && entries == old(entries) + [Entry(key, value)]
    {
      hide Laid, Pending, Filtered, InternalSeparator, Sorted, Encode, FilterBlock.Holds, FilterBlock.Joined;
      ghost var e := Entry(key, value);
      Facts(entries, handles, bounds, blocks, offset, index, pendingIndexEntry);
      NextKeyIndexed(entries, handles, bounds, blocks, offset, index, pendingIndexEntry, e);
      EntryLaid(entries, handles, bounds, blocks, offset, e);
      SortedMore(entries, e);
      if pendingIndexEntry {
        lastKey := FindInternalSeparator(lastKey, key);
        AppendIndexEntry();
      }
      if filter != null {
        KeyFiltered(filter.sets, filter.pending, entries, handles, bounds, offset, e);
        filter.AddKey(Encode(key));
      }
      lastKey := key;
      dataBlock := dataBlock + [Entry(key, value)];
      entries := entries + [e];
      assert FilterValid();
      if encodedSize(dataBlock) >= blockSize {
        Flush();
      }
    }

    method AppendIndexEntry()
      modifies `index, `pendingIndexEntry
      ensures index == old(index) + [IndexEntry(lastKey, pendingHandle)] && !pendingIndexEntry
    {
      index := index + [IndexEntry(lastKey, pendingHandle)];
      pendingIndexEntry := false;
    }

    /** Indexes the last block and finishes the filter. */
    method Finish() returns (t: Table)
      requires Valid()
      modifies this, filter
      ensures entries == old(entries)
      ensures filter == null <==> t.filter == None
      ensures filter != null ==> t.policy == filter.policy
      ensures offset < TWO_64 && (filter != null ==> |t.filter.value| < TWO_32) ==> Built(t, entries, handles, bounds)
    {
      hide Laid, Pending, Filtered, EncodeHandle, Sorted, InternalSuccessor, FilterBlock.Holds, FilterBlock.Joined,
        FilterBlock.IsFilterBlock, Indexed, Built;
      Flush();
      var contents: Option<Bytes> := None;
      var policy := Policy(k => 0, 0, 1);
      if filter != null {
        ghost var sets, pending := filter.sets, filter.pending;
        var c, filters := filter.Finish();
        contents, policy := Some(c), filter.policy;
        if |c| < TWO_32 {
          AllMatch(c, policy, sets, pending, filter.sets, filters, filter.filterOffsets, entries, handles, bounds,
              offset);
        }
      }
      Facts(entries, handles, bounds, blocks, offset, index, pendingIndexEntry);
      if pendingIndexEntry {
        LastKeyIndexed(entries, handles, bounds, index);
        lastKey := FindInternalSuccessor(lastKey);
        AppendIndexEntry();
      } else {
        NothingPending(entries, handles, bounds, blocks, offset, index);
      }
      t := Table(index, blocks, policy, contents);
      if offset < TWO_64 && (filter != null ==> |t.filter.value| < TWO_32) {
        IsBuilt(t, entries, handles, bounds, offset);
      }
    }

    /** Writes the current block, unless it is empty. */
    method Flush()
      requires Valid()
      modifies this, filter
      ensures Valid() && entries == old(entries) && (entries != [] ==> pendingIndexEntry)
    {
      hide Laid, Pending, Filtered, EncodeHandle, Sorted, FilterBlock.Holds, FilterBlock.Joined;
      Facts(entries, handles, bounds, blocks, offset, index, pendingIndexEntry);
      if dataBlock == [] {
        return;
      }
      var handle := Handle(offset, encodedSize(dataBlock));
      ghost var next := offset + handle.size + BLOCK_TRAILER_SIZE;
      BlockLaid(entries, handles, bounds, blocks, offset, handle, next);
      BlockPending(entries, handles, bounds, blocks, offset, index, pendingIndexEntry, handle);
      WriteBlock(handle);
      if filter != null {
        ghost var sets, pending := filter.sets, filter.pending;
        FilterFacts(filter.policy, filter.result, filter.filterOffsets, sets, pending, entries, handles, bounds,
            old(offset), next);
        filter.StartBlock(offset);
        BlockFiltered(sets, pending, filter.sets, filter.pending, entries, handles, bounds, old(offset), handle, next);
      }
      handles, bounds := handles + [handle], bounds + [|entries|];
    }

    method WriteBlock(handle: Handle)
      modifies `blocks, `offset, `dataBlock, `pendingHandle, `pendingIndexEntry
      ensures blocks == old(blocks)[EncodeHandle(handle) := old(dataBlock)] && dataBlock == []
      ensures offset == old(offset) + handle.size + BLOCK_TRAILER_SIZE
      ensures pendingHandle == handle && pendingIndexEntry
    {
      blocks := blocks[EncodeHandle(handle) := dataBlock];
      offset := offset + handle.size + BLOCK_TRAILER_SIZE;
      dataBlock := [];
      pendingHandle, pendingIndexEntry := handle, true;
    }
  }

  /** Every key matches the finished filter block at the offset of its block. */
  ghost predicate KeysMatch(contents: Bytes, policy: Policy, entries: seq<Entry>, handles: seq<Handle>,
        bounds: seq<nat>) {
    |bounds| == |handles| + 1 &&
    forall i, j :: 0 <= i < |handles| && bounds[i] <= j < bounds[i + 1] && j < |entries| ==>
      FilterBlock.Matches(policy, contents, handles[i].offset, Encode(entries[j].key))
  }

  lemma {:induction false} AllMatch(contents: Bytes, policy: Policy, sets: seq<seq<Bytes>>, pending: seq<Bytes>,
                 sets': seq<seq<Bytes>>, filters: Bytes, offsets: seq<nat>,
                 entries: seq<Entry>, handles: seq<Handle>, bounds: seq<nat>, offset: nat)
    requires policy.Valid() && FilterBlock.IsFilterBlock(contents, policy, sets', filters, offsets) &&
      |contents| < TWO_32
    requires sets' == if pending == [] then sets else sets + [pending]
    requires Filtered(sets, pending, entries, handles, bounds, offset)
    ensures KeysMatch(contents, policy, entries, handles, bounds)
  {
    hide Encode, FilterBlock.IsFilterBlock, FilterBlock.Matches;
    forall i, j | 0 <= i < |handles| && bounds[i] <= j < bounds[i + 1] && j < |entries|
      ensures FilterBlock.Matches(policy, contents, handles[i].offset, Encode(entries[j].key))
    {
      assert WillMatch(sets, pending, handles[i].offset, entries[j].key);
      var k := handles[i].offset / FilterBlock.FILTER_BASE;
      var n: nat :| n < |sets'[k]| && sets'[k][n] == Encode(entries[j].key);
      FilterBlock.NeverDenies(contents, policy, sets', filters, offsets, handles[i].offset, n);
    }
  }

  lemma {:induction false} NothingPending(entries: seq<Entry>, handles: seq<Handle>, bounds: seq<nat>,
                 blocks: map<Bytes, seq<Entry>>, offset: nat, index: seq<Entry>)
    requires Laid(entries, handles, bounds, blocks, offset) && Pending(entries, handles, bounds, index, false) &&
      entries == []
    ensures handles == [] && index == [] && Indexed(entries, handles, bounds, index)
  {
    assert bounds[0] < bounds[|handles|] || |handles| == 0;
  }

  lemma {:induction false} IsBuilt(t: Table, entries: seq<Entry>, handles: seq<Handle>, bounds: seq<nat>, offset: nat)
    requires Sorted(entries) && Laid(entries, handles, bounds, t.blocks, offset) &&
      Indexed(entries, handles, bounds, t.index)
    requires |t.index| == |handles| && bounds[|handles|] == |entries|
    requires offset < TWO_64 && forall i :: 0 <= i < |handles| ==> handles[i].size <= offset
    requires t.filter.Some? ==> KeysMatch(t.filter.value, t.policy, entries, handles, bounds)
    ensures Built(t, entries, handles, bounds)
  {
    hide EncodeHandle, Parts, HasBlock, FilterBlock.Matches, Encode;
  }

  lemma {:induction false} FilterFacts(policy: Policy, result: Bytes, offsets: seq<nat>, sets: seq<seq<Bytes>>,
        pending: seq<Bytes>,
                    entries: seq<Entry>, handles: seq<Handle>, bounds: seq<nat>, offset: nat, next: nat)
    requires FilterBlock.Holds(policy, result, offsets, sets) &&
      Filtered(sets, pending, entries, handles, bounds, offset) && offset <= next
    ensures next / FilterBlock.FILTER_BASE >= |offsets|
  {
  }

  lemma {:induction false} Facts(entries: seq<Entry>, handles: seq<Handle>, bounds: seq<nat>,
                 blocks: map<Bytes, seq<Entry>>, offset: nat, index: seq<Entry>, pending: bool)
    requires Laid(entries, handles, bounds, blocks, offset) && Pending(entries, handles, bounds, index, pending)
    ensures |bounds| == |handles| + 1 && bounds[|handles|] <= |entries|
    ensures entries != [] && bounds[|handles|] == |entries| ==> pending
    ensures |index| == |handles| - if pending then 1 else 0
    ensures pending ==> handles != [] && entries != [] && bounds[|handles|] == |entries|
    ensures forall i :: 0 <= i < |bounds| ==> bounds[i] <= |entries|
  {
    hide EncodeHandle, Parts, HasBlock;
    assert handles != [] ==> bounds[0] < bounds[|handles|];
  }

  lemma {:induction false} BlockPending(entries: seq<Entry>, handles: seq<Handle>, bounds: seq<nat>,
                 blocks: map<Bytes, seq<Entry>>, offset: nat, index: seq<Entry>,
                     pending: bool, h: Handle)
    requires Laid(entries, handles, bounds, blocks, offset) && Pending(entries, handles, bounds, index, pending)
    requires bounds[|handles|] < |entries|
    ensures Pending(entries, handles + [h], bounds + [|entries|], index, true)
  {
    hide EncodeHandle, Parts, HasBlock;
  }

  lemma {:induction false} SortedMore(entries: seq<Entry>, e: Entry)
    requires Sorted(entries) && (entries != [] ==> Before(entries[|entries| - 1].key, e.key))
    ensures Sorted(entries + [e])
  {
    var es := entries + [e];
    forall i, j {:trigger Before(es[i].key, es[j].key)} | 0 <= i < j < |es|
      ensures Before(es[i].key, es[j].key)
    {
      if j < |entries| {
        assert Before(entries[i].key, entries[j].key);
      } else if i < |entries| - 1 {
        assert Before(entries[i].key, entries[|entries| - 1].key);
      }
    }
  }

  // ----- looking a key up

  /** What the saver makes of the entry the table hands it. */
  function Saved(e: Option<Entry>, user: Bytes): Found {
    if e.Some? && CompareBytes(e.value.key.user, user) == 0 then Hit(e.value) else Miss
  }

  ghost predicate HashesUserKeys(policy: Policy) {
    forall a, b {:trigger policy.Hash(a), policy.Hash(b)} :: UserPart(a) == UserPart(b) ==>
        policy.Hash(a) == policy.Hash(b)
  }

  lemma {:induction false} InternalHashes(policy: Policy)
    ensures HashesUserKeys(InternalPolicy(policy))
  {
  }

  /** Keys of one user key match the same filters. */
  lemma {:induction false} SameUserMatches(policy: Policy, contents: Bytes, offset: nat, a: IKey, b: IKey)
    requires HashesUserKeys(policy) && a.user == b.user
    ensures FilterBlock.Matches(policy, contents, offset, Encode(a)) <==>
        FilterBlock.Matches(policy, contents, offset, Encode(b))
  {
    hide Encode, UserPart;
    EncodedParts(a);
    EncodedParts(b);
    assert policy.Hash(Encode(a)) == policy.Hash(Encode(b));
  }

  /** Where the lookup lands: in the block the index leads to, or, past its end, at an entry
      of a larger user key. */
  lemma {:induction false} LandsInBlock(t: Table, entries: seq<Entry>, handles: seq<Handle>, bounds: seq<nat>, k: IKey)
    requires Built(t, entries, handles, bounds)
    ensures WellIndexed(t.index, t.blocks)
    ensures var i, at := LowerBound(t.index, k), LowerBound(entries, k);
      if i == |t.index| then at == |entries|
      else
        && t.index[i].value in t.blocks
        && var block := t.blocks[t.index[i].value]; var r := LowerBound(block, k);
        && bounds[i] <= at <= bounds[i + 1] <= |entries|
        && (r < |block| ==> at < bounds[i + 1] && block[r] == entries[at])
        && (r == |block| && at < |entries| ==> Rank(k.user) < Rank(entries[at].key.user))
  {
    hide Built, Concat, WellIndexed, Parts, SeekOffset;
    TableIterates(t, entries, handles, bounds);
    SeekThroughIndex(t.index, t.blocks, k);
    var i, at := LowerBound(t.index, k), LowerBound(entries, k);
    WhereSeekLands(t, entries, handles, bounds, k);
    if i < |t.index| {
      var block := t.blocks[t.index[i].value];
      if LowerBound(block, k) == |block| && at < |entries| {
        PastBlock(entries, t.index[i].key, bounds[i + 1], k);
      }
    }
  }

  lemma {:induction false} WhereSeekLands(t: Table, entries: seq<Entry>, handles: seq<Handle>, bounds: seq<nat>,
        k: IKey)
    requires Built(t, entries, handles, bounds)
    ensures forall x :: x in t.index ==> x.value in t.blocks
    ensures var i := LowerBound(t.index, k);
      if i == |t.index| then SeekOffset(t.index, t.blocks, k) == |entries|
      else
        && |bounds| == |t.index| + 1 && bounds[i] < bounds[i + 1] <= |entries|
        && t.index[i].value in t.blocks && t.blocks[t.index[i].value] == entries[bounds[i]..bounds[i + 1]]
        && Parts(entries, t.index[i].key, bounds[i + 1])
        && SeekOffset(t.index, t.blocks, k) == bounds[i] + LowerBound(t.blocks[t.index[i].value], k)
  {
    hide Parts, KeysMatch, EncodeHandle, Concat;
    IndexNames(t, entries, handles, bounds, k);
    var i := LowerBound(t.index, k);
    ConcatIs(entries, bounds, t.blocks, t.index, i);
    if i < |t.index| {
      assert HasBlock(t.blocks, t.index[i].value, entries, bounds[i], bounds[i + 1]);
    }
  }

  /** Iterating over a table by its index is iterating over its entries. */
  lemma {:induction false} TableIterates(t: Table, entries: seq<Entry>, handles: seq<Handle>, bounds: seq<nat>)
    requires Built(t, entries, handles, bounds)
    ensures WellIndexed(t.index, t.blocks) && Concat(t.index, t.blocks, |t.index|) == entries
  {
    hide KeysMatch, EncodeHandle, WellIndexed, Complete;
    FinishedTable(entries, bounds, t.blocks, t.index);
  }

  lemma {:induction false} IndexNames(t: Table, entries: seq<Entry>, handles: seq<Handle>, bounds: seq<nat>, k: IKey)
    requires Built(t, entries, handles, bounds)
    ensures forall x :: x in t.index ==> x.value in t.blocks
  {
    hide Parts, KeysMatch, EncodeHandle;
    forall x | x in t.index
      ensures x.value in t.blocks
    {
      var i: nat :| i < |t.index| && t.index[i] == x;
      assert HasBlock(t.blocks, t.index[i].value, entries, bounds[i], bounds[i + 1]);
    }
  }

  /** A key after a block but not after its index key is of a user key before the next block's. */
  lemma {:induction false} PastBlock(entries: seq<Entry>, key: IKey, hi: nat, k: IKey)
    requires Parts(entries, key, hi) && hi < |entries|
    requires !Before(key, k) && Before(entries[hi - 1].key, k)
    ensures Rank(k.user) < Rank(entries[hi].key.user)
  {
    assert key != entries[hi - 1].key;
  }

  /** A filter that denies the key is right: no entry of its user key is found. */
  lemma {:induction false} DenialIsRight(t: Table, entries: seq<Entry>, handles: seq<Handle>, bounds: seq<nat>,
        k: IKey, i: nat, at: nat)
    requires Built(t, entries, handles, bounds) && t.filter.Some? && HashesUserKeys(t.policy)
    requires i < |handles| && bounds[i] <= at < bounds[i + 1] && at < |entries|
    requires !FilterBlock.Matches(t.policy, t.filter.value, handles[i].offset, Encode(k))
    ensures entries[at].key.user != k.user
  {
    hide Encode, FilterBlock.Matches, Complete, EncodeHandle, HashesUserKeys;
    assert FilterBlock.Matches(t.policy, t.filter.value, handles[i].offset, Encode(entries[at].key));
    if entries[at].key.user == k.user {
      SameUserMatches(t.policy, t.filter.value, handles[i].offset, entries[at].key, k);
    }
  }

  lemma {:induction false} HandleDecodes(t: Table, entries: seq<Entry>, handles: seq<Handle>, bounds: seq<nat>, i: nat)
    requires Built(t, entries, handles, bounds) && i < |t.index|
    ensures i < |handles| == |t.index| && |bounds| == |handles| + 1
    ensures DecodeHandle(t.index[i].value) == Some(Parsed(handles[i], []))
  {
    hide EncodeHandle, DecodeHandle, KeysMatch, HasBlock, Parts;
    HandleRoundTrip(handles[i], []);
    assert EncodeHandle(handles[i]) + [] == EncodeHandle(handles[i]);
  }

  /** The entry at or after the key, if the index, the filter and the block lead to one. */
  method InternalGet(t: Table, k: IKey, ghost entries: seq<Entry>, ghost handles: seq<Handle>, ghost bounds: seq<nat>)
    returns (e: Option<Entry>)
    requires Built(t, entries, handles, bounds) && (t.filter.Some? ==> HashesUserKeys(t.policy))
    ensures var at := LowerBound(entries, k);
      Saved(e, k.user) == Saved(if at < |entries| then Some(entries[at]) else None, k.user)
  {
    hide Built, HashesUserKeys, FilterBlock.Matches, DecodeHandle, Encode, WellIndexed;
    LandsInBlock(t, entries, handles, bounds, k);
    var iiter := new EntryIterator(t.index);
    iiter.Seek(k);
    if !iiter.HasCurrent() {
      return None;
    }
    HandleDecodes(t, entries, handles, bounds, iiter.pos);
    var handleValue := t.index[iiter.pos].value;
    if t.filter.Some? {
      var handle := DecodeHandle(handleValue);
      if handle.Some? {
        var may := FilterBlock.KeyMayMatch(t.policy, t.filter.value, handle.value.value.offset, Encode(k));
        if !may {
          if LowerBound(entries, k) < bounds[iiter.pos + 1] {
            DenialIsRight(t, entries, handles, bounds, k, iiter.pos, LowerBound(entries, k));
          }
          return None;
        }
      }
    }
    var block := new EntryIterator(t.blocks[handleValue]);
    block.Seek(k);
    e := if block.HasCurrent() then Some(block.items[block.pos]) else None;
  }

  /** A table lookup never misses: through shortened index keys and a filter that may veto
      the block, it finds the newest entry of the user key that the snapshot can see. */
  method Get(t: Table, user: Bytes, s: SequenceNumber, ghost entries: seq<Entry>, ghost handles: seq<Handle>,
        ghost bounds: seq<nat>)
    returns (r: Found)
    requires Built(t, entries, handles, bounds) && (t.filter.Some? ==> HashesUserKeys(t.policy))
    ensures r == Lookup.Probe(entries, user, s) && Answers(r, Contents(entries), user, s)
  {
    ProbeAnswers(entries, user, s);
    hide Built, HashesUserKeys, Answers;
    var e := InternalGet(t, SeekKey(user, s), entries, handles, bounds);
    r := Saved(e, user);
  }
}
