/** An index iterator over blocks, seen as one cursor over their concatenation. */
module TwoLevel {
  import opened ByteStrings
  import opened InternalKeys
  import opened Cursors

  /** The entries of the first `n` blocks the index names. */
  function Concat(index: seq<Entry>, blockOf: map<Bytes, seq<Entry>>, n: nat): seq<Entry>
    requires n <= |index|
    requires forall x :: x in index ==> x.value in blockOf
  {
    if n == 0 then [] else Concat(index, blockOf, n - 1) + blockOf[index[n - 1].value]
  }

  ghost predicate Covers(index: seq<Entry>, blockOf: map<Bytes, seq<Entry>>, i: nat)
    requires i < |index| && index[i].value in blockOf
  {
    forall e :: e in blockOf[index[i].value] ==> !Before(index[i].key, e.key)
  }

  ghost predicate Precedes(index: seq<Entry>, blockOf: map<Bytes, seq<Entry>>, i: nat, k: nat)
    requires i < |index| && k < |index| && index[k].value in blockOf
  {
    forall e :: e in blockOf[index[k].value] ==> Before(index[i].key, e.key)
  }

  /** Every index key separates its block from the following ones. */
  ghost predicate WellIndexed(index: seq<Entry>, blockOf: map<Bytes, seq<Entry>>) {
    && Sorted(index)
    && (forall x :: x in index ==> x.value in blockOf)
    && (forall i :: 0 <= i < |index| ==> Covers(index, blockOf, i))
    && (forall i, k :: 0 <= i < k < |index| ==> Precedes(index, blockOf, i, k))
  }

  lemma {:induction false} ConcatPrefix(index: seq<Entry>, blockOf: map<Bytes, seq<Entry>>, a: nat, b: nat)
    requires a <= b <= |index|
    requires forall x :: x in index ==> x.value in blockOf
    ensures Concat(index, blockOf, a) <= Concat(index, blockOf, b)
    decreases b
  {
    if a < b {
      ConcatPrefix(index, blockOf, a, b - 1);
    }
  }

  /** Where entry `j` of block `i` stands in the concatenation. */
  lemma {:induction false} ConcatAt(index: seq<Entry>, blockOf: map<Bytes, seq<Entry>>, i: nat, j: nat)
    requires i < |index|
    requires forall x :: x in index ==> x.value in blockOf
    requires j < |blockOf[index[i].value]|
    ensures |Concat(index, blockOf, i)| + j < |Concat(index, blockOf, |index|)|
    ensures Concat(index, blockOf, |index|)[|Concat(index, blockOf, i)| + j] == blockOf[index[i].value][j]
  {
    ConcatPrefix(index, blockOf, i + 1, |index|);
  }

  lemma {:induction false} Locate(index: seq<Entry>, blockOf: map<Bytes, seq<Entry>>, n: nat, j: nat) returns (i: nat)
    requires n <= |index|
    requires forall x :: x in index ==> x.value in blockOf
    requires j < |Concat(index, blockOf, n)|
    ensures i < n && |Concat(index, blockOf, i)| <= j < |Concat(index, blockOf, i + 1)|
    ensures Concat(index, blockOf, n)[j] in blockOf[index[i].value]
  {
    if j < |Concat(index, blockOf, n - 1)| {
      i := Locate(index, blockOf, n - 1, j);
    } else {
      i := n - 1;
    }
  }

  /** Where a seek to `target` by index key, then inside the selected block, ends up. */
  function SeekOffset(index: seq<Entry>, blockOf: map<Bytes, seq<Entry>>, target: IKey): nat
    requires forall x :: x in index ==> x.value in blockOf
  {
    var i := LowerBound(index, target);
    |Concat(index, blockOf, i)| + if i < |index| then LowerBound(blockOf[index[i].value], target) else 0
  }

  lemma {:induction false} SeekSkipsSmaller(index: seq<Entry>, blockOf: map<Bytes, seq<Entry>>, target: IKey, j: nat)
    requires WellIndexed(index, blockOf)
    requires j < SeekOffset(index, blockOf, target) && j < |Concat(index, blockOf, |index|)|
    ensures Before(Concat(index, blockOf, |index|)[j].key, target)
  {
    hide Rank, LowerBound;
    var i := LowerBound(index, target);
    var b := Locate(index, blockOf, |index|, j);
    if b < i {
      assert Covers(index, blockOf, b);
    } else {
      ConcatPrefix(index, blockOf, i, b);
      ConcatAt(index, blockOf, i, j - |Concat(index, blockOf, i)|);
    }
  }

  lemma {:induction false} SeekStopsInTime(index: seq<Entry>, blockOf: map<Bytes, seq<Entry>>, target: IKey)
    requires WellIndexed(index, blockOf)
    requires SeekOffset(index, blockOf, target) < |Concat(index, blockOf, |index|)|
    ensures !Before(Concat(index, blockOf, |index|)[SeekOffset(index, blockOf, target)].key, target)
  {
    hide Rank, LowerBound;
    var i := LowerBound(index, target);
    var r := SeekOffset(index, blockOf, target);
    var b := Locate(index, blockOf, |index|, r);
    if b < i {
      ConcatPrefix(index, blockOf, b + 1, i);
    } else if b == i {
      ConcatAt(index, blockOf, i, r - |Concat(index, blockOf, i)|);
    } else {
      assert Precedes(index, blockOf, i, b);
    }
  }

  /** A seek by index key, then inside the block it selects, is a seek in the whole. */
  lemma {:induction false} SeekThroughIndex(index: seq<Entry>, blockOf: map<Bytes, seq<Entry>>, target: IKey)
    requires WellIndexed(index, blockOf)
    ensures LowerBound(Concat(index, blockOf, |index|), target) == SeekOffset(index, blockOf, target)
  {
    var whole := Concat(index, blockOf, |index|);
    var r := SeekOffset(index, blockOf, target);
    var i := LowerBound(index, target);
    ConcatPrefix(index, blockOf, if i < |index| then i + 1 else i, |index|);
    forall j | 0 <= j < r
      ensures Before(whole[j].key, target)
    {
      SeekSkipsSmaller(index, blockOf, target, j);
    }
    if r < |whole| {
      SeekStopsInTime(index, blockOf, target);
    }
    LowerBoundUnique(whole, target, r);
  }

  class TwoLevelIterator {
    const index: EntryIterator
    /** What the block function returns for each handle. */
    const blockOf: map<Bytes, seq<Entry>>
    var data: EntryIterator?
    /** The handle `data` was opened with, if `data` is not null. */
    var handle: Bytes

    ghost predicate Valid()
      reads this, index, data
    {
      && index.Valid()
      && index != data
      && WellIndexed(index.items, blockOf)
      && (data != null ==>
        && data.Valid()
        && handle in blockOf
        && data.items == blockOf[handle]
        && index.HasCurrent()
        && index.items[index.pos].value == handle)
    }

    predicate HasCurrent()
      reads this, data
    {
      data != null && data.HasCurrent()
    }

    ghost function Whole(): seq<Entry>
      requires WellIndexed(index.items, blockOf)
    {
      Concat(index.items, blockOf, |index.items|)
    }

    ghost function Offset(i: nat): nat
      requires WellIndexed(index.items, blockOf) && i <= |index.items|
    {
      |Concat(index.items, blockOf, i)|
    }

    ghost function State(): (c: Cursor<Entry>)
      requires Valid()
      reads this, index, data
      ensures c.Valid() <==> HasCurrent()
      ensures HasCurrent() ==> c.Item() == data.items[data.pos]
    {
      if HasCurrent() then
        ConcatAt(index.items, blockOf, index.pos, data.pos);
        Cursor(Whole(), Offset(index.pos) + data.pos)
      else Cursor(Whole(), |Whole()|)
    }

    constructor (index: EntryIterator, blockOf: map<Bytes, seq<Entry>>)
      requires index.Valid() && WellIndexed(index.items, blockOf)
      ensures Valid() && data == null && this.index == index && this.blockOf == blockOf
    {
      this.index, this.blockOf, data, handle := index, blockOf, null, [];
    }

    method InitDataBlock()
      requires index.Valid() && index != data && WellIndexed(index.items, blockOf)
      requires data != null ==> data.Valid() && handle in blockOf && data.items == blockOf[handle]
      modifies this
      ensures Valid() && (data == old(data) || data == null || fresh(data))
      ensures data == null <==> !index.HasCurrent()
    {
      if !index.HasCurrent() {
        data := null;
      } else {
        var h := index.items[index.pos].value;
        if data != null && h == handle {
          // Already open on this block.
        } else {
          data := new EntryIterator(blockOf[h]);
          handle := h;
        }
      }
    }

    /** `t` is the position in the whole the iterator is looking for: with the data
        block used up it is where the next block starts. */
    method SkipEmptyDataBlocksForward(ghost t: nat)
      requires Valid()
      requires HasCurrent() ==> t == Offset(index.pos) + data.pos
      requires !HasCurrent() ==> t == if index.HasCurrent() then Offset(index.pos + 1) else |Whole()|
      modifies this, index, data
      ensures Valid() && (data == old(data) || data == null || fresh(data))
      ensures State() == Cursor(Whole(), t)
    {
      while data == null || !data.HasCurrent()
        invariant Valid() && (data == old(data) || data == null || fresh(data))
        invariant HasCurrent() ==> t == Offset(index.pos) + data.pos
        invariant !HasCurrent() ==> t == if index.HasCurrent() then Offset(index.pos + 1) else |Whole()|
        decreases |index.items| - index.pos, HasCurrent()
      {
        if !index.HasCurrent() {
          data := null;
          return;
        }
        index.Next();
        InitDataBlock();
        if data != null {
          data.SeekToFirst();
        }
      }
    }

    method SkipEmptyDataBlocksBackward(ghost t: nat)
      requires Valid() && t <= |Whole()|
      requires HasCurrent() ==> t == Offset(index.pos) + data.pos + 1
      requires !HasCurrent() ==> t == if index.HasCurrent() then Offset(index.pos) else 0
      modifies this, index, data
      ensures Valid() && (data == old(data) || data == null || fresh(data))
      ensures State() == Cursor(Whole(), if t == 0 then |Whole()| else t - 1)
    {
      while data == null || !data.HasCurrent()
        invariant Valid() && (data == old(data) || data == null || fresh(data))
        invariant HasCurrent() ==> t == Offset(index.pos) + data.pos + 1
        invariant !HasCurrent() ==> t == if index.HasCurrent() then Offset(index.pos) else 0
        decreases if index.HasCurrent() then index.pos + 1 else 0
      {
        if !index.HasCurrent() {
          data := null;
          return;
        }
        index.Prev();
        InitDataBlock();
        if data != null {
          data.SeekToLast();
        }
      }
    }

    method Seek(target: IKey)
      requires Valid()
      modifies this, index, data
      ensures Valid() && (data == old(data) || data == null || fresh(data))
      ensures State() == old(State()).Moved(LowerBound(Whole(), target))
    {
      index.Seek(target);
      InitDataBlock();
      if data != null {
        data.Seek(target);
      }
      SeekThroughIndex(index.items, blockOf, target);
      SkipEmptyDataBlocksForward(LowerBound(Whole(), target));
    }

    method SeekToFirst()
      requires Valid()
      modifies this, index, data
      ensures Valid() && (data == old(data) || data == null || fresh(data))
      ensures State() == old(State()).First()
    {
      index.SeekToFirst();
      InitDataBlock();
      if data != null {
        data.SeekToFirst();
      }
      assert index.items != [] ==> Offset(1) == Offset(0) + |blockOf[index.items[0].value]|;
      SkipEmptyDataBlocksForward(0);
    }

    method SeekToLast()
      requires Valid()
      modifies this, index, data
      ensures Valid() && (data == old(data) || data == null || fresh(data))
      ensures State() == old(State()).Last()
    {
      index.SeekToLast();
      InitDataBlock();
      if data != null {
        data.SeekToLast();
      }
      SkipEmptyDataBlocksBackward(|Whole()|);
    }

    method Next()
      requires Valid() && HasCurrent()
      modifies this, index, data
      ensures Valid() && (data == old(data) || data == null || fresh(data))
      ensures State() == old(State()).Next()
    {
      ghost var t := State().pos + 1;
      data.Next();
      SkipEmptyDataBlocksForward(t);
    }

    method Prev()
      requires Valid() && HasCurrent()
      modifies this, index, data
      ensures Valid() && (data == old(data) || data == null || fresh(data))
      ensures State() == old(State()).Prev()
    {
      ghost var t := State().pos;
      data.Prev();
      SkipEmptyDataBlocksBackward(t);
    }
  }
}
