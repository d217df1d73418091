/** Reading a block: forward-only decoding made into a two-way cursor by restart points. */
module Block {
  import opened ByteStrings
  import opened Reads
  import opened Cursors
  import opened Coding
  import opened BlockBuilder

  datatype Header = Header(shared: nat, nonShared: nat, valueLength: nat, rest: Bytes)

  /** The three lengths at the start of the input; `rest` begins with the key delta. */
  function DecodeEntry(input: Bytes): (h: Option<Header>)
    ensures h.Some? ==> |h.value.rest| < |input|
  {
    if |input| < 3 then None
    else
      match DecodeLengths(input)
      case None => None
      case Some(h) => if |h.rest| % TWO_32 < (h.nonShared + h.valueLength) % TWO_32 then None else Some(h)
  }

  function DecodeLengths(input: Bytes): (h: Option<Header>)
    requires |input| >= 3
    ensures h.Some? ==> |h.value.rest| < |input|
  {
    if input[0] < 128 && input[1] < 128 && input[2] < 128 then
      Some(Header(input[0] as nat, input[1] as nat, input[2] as nat, input[3..]))
    else
      match GetVarint32(input)
      case None => None
      case Some(a) =>
        match GetVarint32(a.rest)
        case None => None
        case Some(b) =>
          match GetVarint32(b.rest)
          case None => None
          case Some(c) =>
            Some(Header(a.value, b.value, c.value, c.rest))
  }

  /** The input starts with this number, in one byte or more. */
  ghost predicate StartsWith(input: Bytes, v: nat, rest: Bytes) {
    && input != [] && GetVarint32(input) == Some(Parsed(v, rest))
    && (input[0] < 128 ==> v == input[0] as nat && rest == input[1..])
  }

  lemma {:induction false} VarintStarts(v: nat, rest: Bytes)
    requires v < TWO_32
    ensures StartsWith(Varint(v) + rest, v, rest)
  {
    hide GetVarint32;
    Varint32RoundTrip(v, rest);
  }

  /** The one-byte fast path and the slow path agree. */
  lemma {:induction false} EitherPath(input: Bytes, a: nat, afterA: Bytes, b: nat, afterB: Bytes, c: nat, rest: Bytes)
    requires |input| >= 3 && StartsWith(input, a, afterA) && StartsWith(afterA, b, afterB) &&
      StartsWith(afterB, c, rest)
    ensures DecodeLengths(input) == Some(Header(a, b, c, rest))
  {
    hide GetVarint32;
    if input[0] < 128 && input[1] < 128 && input[2] < 128 {
      assert afterA[0] == input[1] && afterB == input[2..];
      assert afterB[0] == input[2] && rest == input[3..];
    }
  }

  lemma {:induction false} LengthsRoundTrip(a: nat, b: nat, c: nat, rest: Bytes)
    requires a < TWO_32 && b < TWO_32 && c < TWO_32
    ensures var input := Varint(a) + Varint(b) + Varint(c) + rest;
      |input| >= 3 && DecodeLengths(input) == Some(Header(a, b, c, rest))
  {
    hide Varint, StartsWith, DecodeLengths;
    var afterB := Varint(c) + rest;
    var afterA := Varint(b) + afterB;
    var input := Varint(a) + Varint(b) + Varint(c) + rest;
    assert input == Varint(a) + afterA;
    VarintStarts(a, afterA);
    VarintStarts(b, afterB);
    VarintStarts(c, rest);
    EitherPath(input, a, afterA, b, afterB, c, rest);
  }

  /** Where the entry a restart point leads to starts. */
  function RestartPoint(data: Bytes, restarts: nat, index: nat): nat
    requires restarts + 4 * index + 4 <= |data|
  {
    FixedValue(data[restarts + 4 * index..restarts + 4 * index + 4])
  }

  lemma {:induction false} RestartPointIs(data: Bytes, items: seq<Item>, at: seq<nat>, index: nat)
    requires IsBlock(data, items, at) && index < |at|
    ensures var restarts := |Buffer(items)|;
      && at[index] <= |items|
      && restarts + 4 * index + 4 <= |data| && RestartPoint(data, restarts, index) == Offset(items, at[index])
  {
    hide Buffer, EncodeFixed32, FixedValue, AllFit, Offset, Fixed32s;
    var restarts, words := |Buffer(items)|, Fixed32s(Offsets(items, at));
    var lo := 4 * index;
    AtRestart(data, items, at, index);
    assert data[restarts + lo..restarts + lo + 4] == words[lo..lo + 4];
    WordOf(Offsets(items, at), index);
    assert Offsets(items, at)[index] == Offset(items, at[index]);
    NextOffset(items, at[index]);
  }

  lemma {:induction false} DecodesEntryBytes(shared: nat, it: Item, after: Bytes)
    requires shared <= |it.key| < TWO_32 && |it.value| < TWO_32 && |EntryBytes(shared, it) + after| < TWO_32
    ensures DecodeEntry(EntryBytes(shared, it) + after)
         == Some(Header(shared, |it.key| - shared, |it.value|, it.key[shared..] + it.value + after))
  {
    hide Varint, DecodeLengths;
    var rest := it.key[shared..] + it.value + after;
    var input := EntryBytes(shared, it) + after;
    assert input == Varint(shared) + Varint(|it.key| - shared) + Varint(|it.value|) + rest;
    LengthsRoundTrip(shared, |it.key| - shared, |it.value|, rest);
  }

  /** Every entry decodes, at its offset, to its own lengths, key delta and value. */
  lemma {:induction false} EntryDecodes(data: Bytes, items: seq<Item>, at: seq<nat>, i: nat) returns (after: Bytes)
    requires IsBlock(data, items, at) && i < |items|
    ensures Offset(items, i) < Offset(items, i + 1) <= |Buffer(items)| <= |data|
    ensures |after| == |Buffer(items)| - Offset(items, i + 1)
    ensures var it, shared := items[i], Shared(items, i);
      DecodeEntry(data[Offset(items, i)..|Buffer(items)|])
      == Some(Header(shared, |it.key| - shared, |it.value|, it.key[shared..] + it.value + after))
  {
    hide Buffer, EntryBytes, DecodeEntry, Fixed32s, RestartsAt, Shared;
    var e, buffer := EntryBytes(Shared(items, i), items[i]), Buffer(items);
    EntryAt(items, i);
    after := buffer[Offset(items, i)..][|e|..];
    Front(data, buffer, Offset(items, i));
    assert buffer[Offset(items, i)..] == e + after;
    DecodesEntryBytes(Shared(items, i), items[i], after);
  }

  lemma {:induction false} Front(data: Bytes, buffer: Bytes, lo: nat)
    requires buffer <= data && lo <= |buffer|
    ensures data[lo..|buffer|] == buffer[lo..]
  {
  }

  /** The comparator orders keys strictly. */
  ghost predicate Transitive(compare: (Bytes, Bytes) -> int) {
    forall a, b, c {:trigger compare(a, b), compare(b, c)} :: compare(a, b) < 0 && compare(b, c) < 0 ==>
        compare(a, c) < 0
  }

  ghost predicate Ascending(compare: (Bytes, Bytes) -> int, items: seq<Item>) {
    forall i, j {:trigger compare(items[i].key, items[j].key)} :: 0 <= i < j < |items| ==>
        compare(items[i].key, items[j].key) < 0
  }

  /** `pos` is the first entry at or after the target. */
  ghost predicate IsSeek(compare: (Bytes, Bytes) -> int, items: seq<Item>, target: Bytes, pos: nat) {
    && pos <= |items|
    && (forall j :: 0 <= j < pos ==> compare(items[j].key, target) < 0)
    && (pos < |items| ==> compare(items[pos].key, target) >= 0)
  }

  lemma {:induction false} AllBefore(compare: (Bytes, Bytes) -> int, items: seq<Item>, target: Bytes, p: nat)
    requires Transitive(compare) && Ascending(compare, items)
    requires p == 0 || (p < |items| && compare(items[p].key, target) < 0)
    ensures forall j :: 0 <= j < p ==> compare(items[j].key, target) < 0
  {
    forall j | 0 <= j < p
      ensures compare(items[j].key, target) < 0
    {
      assert compare(items[j].key, items[p].key) < 0;
    }
  }

  /** Reading the key delta on top of what is left of the key before gives the key. */
  lemma {:induction false} KeyRebuilt(items: seq<Item>, i: nat, key: Bytes)
    requires i < |items| && KeyBefore(items, i, key)
    ensures Shared(items, i) <= |key|
    ensures key[..Shared(items, i)] + items[i].key[Shared(items, i)..] == items[i].key
  {
    if Shared(items, i) > 0 {
      var n := Shared(items, i);
      assert items[i - 1].key[..n] == items[i].key[..n];
    }
  }

  /** Enough of the key is known to decode entry `i`: the entry before it, or nothing if
      the key is stored in full. */
  ghost predicate KeyBefore(items: seq<Item>, i: nat, key: Bytes) {
    i <= |items| && (i < |items| ==> i == 0 || items[i].restart || key == items[i - 1].key)
  }

  class Iter {
    const compare: (Bytes, Bytes) -> int
    const data: Bytes
    /** Offset of the restart array. */
    const restarts: nat
    const numRestarts: nat
    /** Offset of the current entry, and the restart block it falls in. */
    var current: nat
    var restartIndex: nat
    var key: Bytes
    var value: Bytes
    /** Offset just past the current entry. */
    var next: nat
    ghost const items: seq<Item>
    ghost const at: seq<nat>
    ghost var pos: nat

    ghost predicate Fixed() {
      && IsBlock(data, items, at) && restarts == |Buffer(items)| && numRestarts == |at|
      && at != [] && at[0] == 0
      && Transitive(compare) && Ascending(compare, items)
    }

    ghost predicate Valid()
      reads this
    {
      && Fixed() && pos <= |items|
      && (pos == |items| ==> current == restarts)
      && (pos < |items| ==> current == Offset(items, pos) < restarts && OnEntry())
    }

    ghost predicate OnEntry()
      requires pos < |items|
      reads this
    {
      && key == items[pos].key && value == items[pos].value && next == Offset(items, pos + 1)
      && restartIndex < |at| && at[restartIndex] <= pos
    }

    /** The next call to ParseNextKey will read entry `p`. */
    ghost predicate Ready(p: nat)
      reads this
    {
      && Fixed() && p <= |items| && next == Offset(items, p)
      && KeyBefore(items, p, key) && restartIndex < |at| && at[restartIndex] <= p
    }

    predicate HasCurrent()
      reads this
    {
      current < restarts
    }

    ghost function State(): (c: Cursor<Item>)
      requires Valid()
      reads this
      ensures c.Valid() <==> HasCurrent()
      ensures HasCurrent() ==> c.Item().key == key && c.Item().value == value
    {
      Cursor(items, pos)
    }

    constructor (compare: (Bytes, Bytes) -> int, data: Bytes, ghost items: seq<Item>, ghost at: seq<nat>,
          restarts: nat, numRestarts: nat)
      requires IsBlock(data, items, at) && restarts == |Buffer(items)| && numRestarts == |at|
      requires Transitive(compare) && Ascending(compare, items)
      ensures Valid() && pos == |items| && this.items == items && this.data == data && this.compare == compare
    {
      HasRestart(data, items, at);
      hide IsBlock, Transitive, Ascending;
      this.compare, this.data, this.restarts, this.numRestarts := compare, data, restarts, numRestarts;
      this.items, this.at, pos := items, at, |items|;
      current, restartIndex, key, value, next := restarts, numRestarts, [], [], 0;
    }

    method GetRestartPoint(index: nat) returns (r: nat)
      requires Fixed() && index < |at|
      ensures at[index] <= |items| && r == Offset(items, at[index])
    {
      RestartPointIs(data, items, at, index);
      r := RestartPoint(data, restarts, index);
    }

    method SeekToRestartPoint(index: nat)
      requires Fixed() && index < |at|
      modifies this
      ensures at[index] <= |items| && Ready(at[index]) && pos == old(pos)
    {
      hide IsBlock, Transitive, Ascending;
      AtRestart(data, items, at, index);
      key := [];
      restartIndex := index;
      next := GetRestartPoint(index);
      value := [];
    }

    /** Reads the entry that starts where the value ends; false at the end of the entries. */
    method ParseNextKey(ghost p: nat) returns (ok: bool)
      requires Ready(p)
      modifies this
      ensures Valid() && pos == p && (ok <==> p < |items|)
    {
      hide IsBlock, Transitive, Ascending, Buffer, Shared, DecodeEntry, KeyBefore;
      NextOffset(items, p);
      current := next;
      pos := p;
      if current >= restarts {
        current, restartIndex := restarts, numRestarts;
        return false;
      }
      ghost var after := EntryDecodes(data, items, at, p);
      KeyRebuilt(items, p, key);
      var entry := DecodeEntry(data[current..restarts]);
      if entry.None? || |key| < entry.value.shared {
        // A corruption error, which a block that was built never gives.
        assert false;
      }
      var h := entry.value;
      EntryPieces(items, p, after);
      key := key[..h.shared] + h.rest[..h.nonShared];
      value := h.rest[h.nonShared..h.nonShared + h.valueLength];
      next := restarts - |h.rest| + h.nonShared + h.valueLength;
      AdvanceRestart();
      ok := true;
    }

    method Next()
      requires Valid() && HasCurrent()
      modifies this
      ensures Valid() && State() == old(State()).Next()
    {
      hide IsBlock, Transitive, Ascending, Buffer;
      var ok := ParseNextKey(pos + 1);
    }

    method SeekToFirst()
      requires Fixed()
      modifies this
      ensures Valid() && State() == Cursor(items, pos).First()
    {
      hide IsBlock, Transitive, Ascending, Buffer;
      AtRestart(data, items, at, 0);
      SeekToRestartPoint(0);
      var ok := ParseNextKey(0);
    }

    method SeekToLast()
      requires Fixed()
      modifies this
      ensures Valid() && State() == Cursor(items, pos).Last()
    {
      hide IsBlock, Transitive, Ascending, Buffer, Offset;
      AtRestart(data, items, at, 0);
      AtRestart(data, items, at, |at| - 1);
      SeekToRestartPoint(numRestarts - 1);
      ghost var p := at[|at| - 1];
      var ok := ParseNextKey(p);
      while ok
        invariant Valid() && (ok <==> pos < |items|) && (pos == |items| ==> items == [])
        decreases |items| - pos
      {
        NextOffset(items, pos + 1);
        if next >= restarts {
          break;
        }
        ok := ParseNextKey(pos + 1);
      }
    }

    /** Binary search among the restart points for the last one with a key before the target,
        then entry by entry to the first key at or after it. */
    method Seek(target: Bytes)
      requires Fixed()
      modifies this
      ensures Valid() && IsSeek(compare, items, target, pos)
    {
      hide IsBlock, Transitive, Ascending, Buffer, Offset;
      var left := FindRestart(target);
      ghost var p := at[left];
      SeekToRestartPoint(left);
      AllBefore(compare, items, target, p);
      var ok := ParseNextKey(p);
      while ok
        invariant Valid() && (ok <==> pos < |items|)
        invariant forall j :: 0 <= j < pos ==> compare(items[j].key, target) < 0
        decreases |items| - pos
      {
        if compare(key, target) >= 0 {
          break;
        }
        ok := ParseNextKey(pos + 1);
      }
    }

    method FindRestart(target: Bytes) returns (left: nat)
      requires Fixed()
      ensures left < |at| && at[left] <= |items|
      ensures at[left] == 0 || (at[left] < |items| && compare(items[at[left]].key, target) < 0)
    {
      hide IsBlock, Transitive, Ascending, Buffer, Offset;
      left := 0;
      var right := numRestarts - 1;
      while left < right
        invariant 0 <= left <= right < |at|
        invariant left == 0 || (at[left] < |items| && compare(items[at[left]].key, target) < 0)
      {
        var mid := (left + right + 1) / 2;
        AtRestart(data, items, at, mid);
        var regionOffset := GetRestartPoint(mid);
        ghost var after := EntryDecodes(data, items, at, at[mid]);
        var entry := DecodeEntry(data[regionOffset..restarts]);
        EntryPieces(items, at[mid], after);
        if entry.None? || entry.value.shared != 0 {
          // A corruption error, which a block that was built never gives.
          assert false;
        }
        var midKey := entry.value.rest[..entry.value.nonShared];
        if compare(midKey, target) < 0 {
          left := mid;
        } else {
          right := mid - 1;
        }
      }
      AtRestart(data, items, at, left);
    }

    /** Goes back to a restart point before the current entry and reads forward from there
        to the entry just before it. */
    method Prev()
      requires Valid() && HasCurrent()
      modifies this
      ensures Valid() && State() == old(State()).Prev()
    {
      hide IsBlock, Transitive, Ascending, Buffer, Offset;
      ghost var start := pos;
      var original := current;
      while true
        invariant Valid() && pos == start && current == original
        decreases restartIndex
      {
        var r := GetRestartPoint(restartIndex);
        OffsetsAscend(items, at[restartIndex], pos);
        if r < original {
          break;
        }
        AtRestart(data, items, at, restartIndex);
        if restartIndex == 0 {
          current, restartIndex, pos := restarts, numRestarts, |items|;
          return;
        }
        restartIndex := restartIndex - 1;
        Lower(data, items, at, restartIndex);
      }
      ghost var p := at[restartIndex];
      SeekToRestartPoint(restartIndex);
      var ok := ParseNextKey(p);
      while ok
        invariant Valid() && ok && pos < start
        decreases start - pos
      {
        OffsetsAscend(items, pos + 1, start);
        if next >= original {
          break;
        }
        ok := ParseNextKey(pos + 1);
      }
    }

    /** Moves on to the last restart block that starts before the current entry. */
    method AdvanceRestart()
      requires Valid() && pos < |items|
      modifies `restartIndex
      ensures Valid()
    {
      hide IsBlock, Transitive, Ascending, Buffer;
      while restartIndex + 1 < numRestarts
        invariant Valid()
        decreases numRestarts - restartIndex
      {
        var r := GetRestartPoint(restartIndex + 1);
        if r >= current {
          break;
        }
        OffsetsAscend(items, at[restartIndex + 1], pos);
        restartIndex := restartIndex + 1;
      }
    }
  }

  /** The entries end where the restart array begins. */
  lemma {:induction false} NextOffset(items: seq<Item>, p: nat)
    requires p <= |items|
    ensures p < |items| <==> Offset(items, p) < |Buffer(items)|
    ensures p == |items| ==> Offset(items, p) == |Buffer(items)|
  {
    hide Buffer;
    OffsetsAscend(items, p, |items|);
    assert items[..|items|] == items;
  }

  lemma {:induction false} HasRestart(data: Bytes, items: seq<Item>, at: seq<nat>)
    requires IsBlock(data, items, at)
    ensures at != [] && at[0] == 0
  {
    hide Buffer, Fixed32s, AllFit, Offset;
  }

  lemma {:induction false} Lower(data: Bytes, items: seq<Item>, at: seq<nat>, k: nat)
    requires IsBlock(data, items, at) && k + 1 < |at|
    ensures at[k] < at[k + 1]
  {
    hide Buffer, Fixed32s, AllFit, Offset;
  }

  lemma {:induction false} EntryPieces(items: seq<Item>, p: nat, after: Bytes)
    requires p < |items| && Shared(items, p) <= |items[p].key|
    ensures var it, shared := items[p], Shared(items, p);
      var rest := it.key[shared..] + it.value + after;
      && rest[..|it.key| - shared] == it.key[shared..]
      && rest[|it.key| - shared..|it.key| - shared + |it.value|] == it.value
  {
  }

  lemma {:induction false} AtRestart(data: Bytes, items: seq<Item>, at: seq<nat>, index: nat)
    requires IsBlock(data, items, at) && index < |at|
    ensures at[index] <= |items| && (at[index] < |items| ==> items[at[index]].restart)
    ensures index > 0 ==> 0 < at[index] < |items|
    ensures at[0] == 0
  {
    hide Buffer, Fixed32s, AllFit, Offset;
  }

  /** The trailing count of restart points, and where the restart array starts; none if the
      bytes are too few. */
  function OpenBlock(data: Bytes): Option<(nat, nat)> {
    if |data| < 4 then None
    else
      var n := FixedValue(data[|data| - 4..]);
      if n > (|data| - 4) / 4 then None else Some((|data| - (1 + n) * 4, n))
  }

  lemma {:induction false} OpensBuilt(data: Bytes, items: seq<Item>, at: seq<nat>)
    requires IsBlock(data, items, at)
    ensures OpenBlock(data) == Some((|Buffer(items)|, |at|))
  {
    hide Buffer, Fixed32s, AllFit, RestartsAt, EncodeFixed32, FixedValue;
    assert data[|data| - 4..] == EncodeFixed32(|at| % TWO_32);
  }

  /** An iterator over a block that was built, found by its trailer. */
  method NewIterator(compare: (Bytes, Bytes) -> int, data: Bytes, ghost items: seq<Item>, ghost at: seq<nat>)
    returns (it: Iter)
    requires IsBlock(data, items, at) && Transitive(compare) && Ascending(compare, items)
    ensures fresh(it) && it.Valid() && it.State() == Cursor(items, |items|) && it.compare == compare
  {
    OpensBuilt(data, items, at);
    hide IsBlock, OpenBlock, Transitive, Ascending, Buffer;
    var open := OpenBlock(data).value;
    it := new Iter(compare, data, items, at, open.0, open.1);
  }
}
