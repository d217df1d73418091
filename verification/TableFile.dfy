/** The bytes of a table behind its data blocks, and opening a table by them. */
module TableFile {
  import opened ByteStrings
  import opened InternalKeys
  import opened Reads
  import opened Coding
  import opened Crc32c
  import opened BlockBuilder
  import opened Format
  import Block
  import Cursors
  import Table

  // ----- one block

  /** The type of an uncompressed block, and the checksum of contents and type. */
  function Trailer(contents: Bytes): (b: Bytes)
    ensures |b| == Table.BLOCK_TRAILER_SIZE
  {
    [0] + Stamp(contents + [0])
  }

  function Stored(contents: Bytes): Bytes {
    contents + Trailer(contents)
  }

  /** The contents at a handle, unless cut short, of another type, or damaged if that is checked. */
  function ReadBlock(file: Bytes, verify: bool, h: Handle): Option<Bytes> {
    var end := h.offset + h.size;
    if |file| < end + Table.BLOCK_TRAILER_SIZE then None
    else if verify && !StampMatches(file[end + 1..end + 5], file[h.offset..end + 1]) then None
    else if file[end] != 0 then None
    else Some(file[h.offset..end])
  }

  method WriteRawBlock(file0: Bytes, contents: Bytes) returns (file: Bytes, handle: Handle)
    ensures file == file0 + Stored(contents) && handle == Handle(|file0|, |contents|)
  {
    handle := Handle(|file0|, |contents|);
    file := file0 + contents;
    file := file + ([0] + Stamp(contents + [0]));
    assert file == file0 + Stored(contents);
  }

  /** A block that was written is read back, whatever the file holds before and after it. */
  lemma {:induction false} BlockReturns(before: Bytes, contents: Bytes, after: Bytes, verify: bool)
    ensures ReadBlock(before + Stored(contents) + after, verify, Handle(|before|, |contents|)) == Some(contents)
  {
    var file, at, end := before + Stored(contents) + after, |before|, |before| + |contents|;
    OwnStampMatches(contents + [0]);
    hide Stamp, StampMatches;
    assert file == before + (contents + ([0] + (Stamp(contents + [0]) + after)));
    assert file[at..end] == contents && file[end] == 0 && file[at..end + 1] == contents + [0];
    assert file[end + 1..end + 5] == Stamp(contents + [0]);
  }

  /** Contents are read only if they and their trailer are in the file, the type is that of uncompressed
      blocks, and, where that is checked, the checksum is accepted. */
  lemma {:induction false} ReadsIff(file: Bytes, verify: bool, h: Handle, contents: Bytes)
    ensures ReadBlock(file, verify, h) == Some(contents) <==>
      && h.size == |contents| && h.offset + h.size + 5 <= |file|
      && file[h.offset..h.offset + h.size] == contents && file[h.offset + h.size] == 0
      && (verify ==> StampMatches(file[h.offset + h.size + 1..h.offset + h.size + 5], contents + [0]))
  {
    hide StampMatches;
    var end := h.offset + h.size;
    if end + 5 <= |file| {
      assert file[end] == 0 ==> file[h.offset..end + 1] == file[h.offset..end] + [0];
    }
  }

  /** What can be read in a file can be read when more has been written. */
  lemma {:induction false} StillReads(file: Bytes, more: Bytes, verify: bool, h: Handle)
    requires ReadBlock(file, verify, h).Some?
    ensures ReadBlock(file + more, verify, h) == ReadBlock(file, verify, h)
  {
    hide StampMatches;
    var end := h.offset + h.size;
    assert (file + more)[h.offset..end] == file[h.offset..end] &&
      (file + more)[h.offset..end + 1] == file[h.offset..end + 1];
    assert (file + more)[end + 1..end + 5] == file[end + 1..end + 5];
  }

  // ----- the whole file

  /** "filter." and the name of a policy. */
  function FilterKey(name: Bytes): Bytes {
    [102, 105, 108, 116, 101, 114, 46] + name
  }

  /** What a table file is made of: data blocks, the filter block if any and its policy's name, the
      metaindex and the index block. */
  datatype Layout = Layout(data: Bytes, filter: Option<Bytes>, name: Bytes, meta: Bytes, index: Bytes)

  function WithFilter(l: Layout): Bytes {
    l.data + if l.filter.Some? then Stored(l.filter.value) else []
  }

  function WithMeta(l: Layout): Bytes {
    WithFilter(l) + Stored(l.meta)
  }

  function FooterOf(l: Layout): Footer {
    Footer(Handle(|WithFilter(l)|, |l.meta|), Handle(|WithMeta(l)|, |l.index|))
  }

  function FileOf(l: Layout): Bytes {
    WithMeta(l) + Stored(l.index) + EncodeFooter(FooterOf(l))
  }

  /** The metaindex names the filter block, if there is one. */
  ghost predicate MetaOk(l: Layout, items: seq<Item>, at: seq<nat>) {
    && IsBlock(l.meta, items, at)
    && if l.filter.None? then items == []
       else |items| == 1 && items[0].key == FilterKey(l.name) && items[0].value == EncodeHandle(Handle(|l.data|, |l.filter.value|))
  }

  /** The index block holds these index entries. */
  ghost predicate IndexOk(l: Layout, entries: seq<Entry>, items: seq<Item>, at: seq<nat>) {
    IsBlock(l.index, items, at) && Encodes(items, entries)
  }

  /** Filter block, metaindex, index and footer, behind the data blocks. */
  method Finish(data: Bytes, index: seq<Entry>, filter: Option<Bytes>, name: Bytes)
    returns (file: Bytes, ghost l: Layout,
        ghost metaItems: seq<Item>, ghost metaAt: seq<nat>, ghost items: seq<Item>, ghost at: seq<nat>)
    requires |FilterKey(name)| < TWO_32 && |data| < TWO_64 && (filter.Some? ==> |filter.value| < TWO_64)
    requires forall e :: e in index ==> |Encode(e.key)| < TWO_32 && |e.value| < TWO_32
    ensures file == FileOf(l) && l.data == data && l.filter == filter && l.name == name
    ensures |l.meta| < TWO_32 ==> MetaOk(l, metaItems, metaAt)
    ensures |l.index| < TWO_32 ==> IndexOk(l, index, items, at)
  {
    hide Stored, IsBlock, EncodeHandle, EncodeFooter, Encode, FilterKey;
    file := data;
    var metaBlock := new BlockBuilder(16);
    if filter.Some? {
      var filterHandle;
      file, filterHandle := WriteRawBlock(file, filter.value);
      HandleLength(filterHandle);
      metaBlock.Add(FilterKey(name), EncodeHandle(filterHandle));
    } else {
      assert file == file + [];
    }
    var meta := metaBlock.Finish();
    metaItems, metaAt := metaBlock.items, metaBlock.at;
    var metaHandle, indexHandle;
    file, metaHandle := WriteRawBlock(file, meta);
    var contents;
    contents, items, at := IndexBlock(index);
    l := Layout(data, filter, name, meta, contents);
    file, indexHandle := WriteRawBlock(file, contents);
    file := file + EncodeFooter(Footer(metaHandle, indexHandle));
  }

  method IndexBlock(index: seq<Entry>) returns (contents: Bytes, ghost items: seq<Item>, ghost at: seq<nat>)
    requires forall e :: e in index ==> |Encode(e.key)| < TWO_32 && |e.value| < TWO_32
    ensures Encodes(items, index) && (|contents| < TWO_32 ==> IsBlock(contents, items, at))
  {
    hide Encode, IsBlock;
    var indexBlock := new BlockBuilder(1);
    for i := 0 to |index|
      invariant fresh(indexBlock) && indexBlock.Valid() && !indexBlock.finished && Encodes(indexBlock.items, index[..i])
      modifies indexBlock
    {
      assert index[i] in index;
      ghost var before := indexBlock.items;
      indexBlock.Add(Encode(index[i].key), index[i].value);
      EncodesMore(before, indexBlock.items, index, i);
    }
    assert index[..|index|] == index;
    contents := indexBlock.Finish();
    items, at := indexBlock.items, indexBlock.at;
  }

  lemma {:induction false} EncodesMore(before: seq<Item>, after: seq<Item>, index: seq<Entry>, i: nat)
    requires i < |index| && Encodes(before, index[..i]) && |after| == i + 1 && after[..i] == before
    requires after[i].key == Encode(index[i].key) && after[i].value == index[i].value
    ensures Encodes(after, index[..i + 1])
  {
    hide Encode;
    forall k | 0 <= k < i + 1
      ensures after[k].key == Encode(index[..i + 1][k].key) && after[k].value == index[..i + 1][k].value
    {
      if k < i {
        assert after[k] == after[..i][k] == before[k] && index[..i][k] == index[k];
      }
    }
  }

  // ----- opening

  /** Where the footer says the metaindex is, and the contents of the index block; none if the file is
      too short, is no table, or its index block cannot be read. */
  function OpenIndex(file: Bytes, paranoid: bool): Option<(Handle, Bytes)> {
    if |file| < FOOTER_LENGTH then None
    else
      match DecodeFooter(file[|file| - FOOTER_LENGTH..])
      case None => None
      case Some(footer) =>
        match ReadBlock(file, paranoid, footer.index)
        case None => None
        case Some(contents) => Some((footer.metaindex, contents))
  }

  function ValueOf(items: seq<Item>, key: Bytes): Option<Bytes> {
    if items == [] then None else if items[0].key == key then Some(items[0].value) else ValueOf(items[1..], key)
  }

  /** The filter block that the metaindex names for the key; problems count as no filter. */
  function FilterNamed(file: Bytes, paranoid: bool, items: seq<Item>, key: Bytes): Option<Bytes> {
    match ValueOf(items, key)
    case None => None
    case Some(value) =>
      match DecodeHandle(value)
      case None => None
      case Some(h) => ReadBlock(file, paranoid, h.value)
  }

  lemma {:induction false} SeekFindsValue(items: seq<Item>, key: Bytes, pos: nat)
    requires Block.Ascending(CompareBytes, items) && Block.IsSeek(CompareBytes, items, key, pos)
    ensures ValueOf(items, key) == if pos < |items| && items[pos].key == key then Some(items[pos].value) else None
    decreases |items|
  {
    hide CompareBytes;
    if pos > 0 {
      var rest := items[1..];
      forall i, j {:trigger CompareBytes(rest[i].key, rest[j].key)} | 0 <= i < j < |rest|
        ensures CompareBytes(rest[i].key, rest[j].key) < 0
      {
        assert CompareBytes(items[i + 1].key, items[j + 1].key) < 0;
      }
      SeekFindsValue(rest, key, pos - 1);
    } else if items != [] && items[0].key != key {
      NoneFrom(items, key);
    }
  }

  lemma {:induction false} NoneFrom(items: seq<Item>, key: Bytes)
    requires items != [] && Block.Ascending(CompareBytes, items) && CompareBytes(items[0].key, key) > 0
    ensures ValueOf(items, key) == None
    decreases |items|
  {
    hide CompareBytes;
    if |items| > 1 {
      var rest := items[1..];
      forall i, j {:trigger CompareBytes(rest[i].key, rest[j].key)} | 0 <= i < j < |rest|
        ensures CompareBytes(rest[i].key, rest[j].key) < 0
      {
        assert CompareBytes(items[i + 1].key, items[j + 1].key) < 0;
      }
      assert CompareBytes(items[0].key, items[1].key) < 0;
      NoneFrom(rest, key);
    }
  }

  lemma {:induction false} BytesTransitive()
    ensures Block.Transitive(CompareBytes)
  {
  }

  /** Opens a table of any bytes; what its metaindex block holds, if that can be read, are these items. */
  method Open(file: Bytes, paranoid: bool, policy: Option<Bytes>, ghost items: seq<Item>, ghost at: seq<nat>)
    returns (index: Option<Bytes>, filter: Option<Bytes>)
    requires var o := OpenIndex(file, paranoid);
      o.Some? && policy.Some? && ReadBlock(file, paranoid, o.value.0).Some? ==>
        IsBlock(ReadBlock(file, paranoid, o.value.0).value, items, at) && Block.Ascending(CompareBytes, items)
    ensures var o := OpenIndex(file, paranoid);
      && index == (if o.None? then None else Some(o.value.1))
      && filter == if o.None? || policy.None? || ReadBlock(file, paranoid, o.value.0).None? then None
                   else FilterNamed(file, paranoid, items, FilterKey(policy.value))
  {
    hide ReadBlock, DecodeFooter, DecodeHandle, IsBlock, FilterKey, CompareBytes, Block.Ascending, Block.Transitive;
    index, filter := None, None;
    if |file| < FOOTER_LENGTH {
      return;
    }
    var footer := DecodeFooter(file[|file| - FOOTER_LENGTH..]);
    if footer.None? {
      return;
    }
    index := ReadBlock(file, paranoid, footer.value.index);
    if index.None? || policy.None? {
      return;
    }
    var meta := ReadBlock(file, paranoid, footer.value.metaindex);
    if meta.None? {
      return;
    }
    var key := FilterKey(policy.value);
    BytesTransitive();
    var iter := Block.NewIterator(CompareBytes, meta.value, items, at);
    iter.Seek(key);
    SeekFindsValue(items, key, iter.pos);
    if iter.HasCurrent() && iter.key == key {
      var handle := DecodeHandle(iter.value);
      if handle.Some? {
        filter := ReadBlock(file, paranoid, handle.value.value);
      }
    }
  }

  /** A file that was written opens with its index block, and with its filter block for the policy it
      was written with and no other. */
  lemma {:induction false} OpensWritten(l: Layout, paranoid: bool, name: Bytes, items: seq<Item>, at: seq<nat>)
    requires MetaOk(l, items, at) && |FileOf(l)| < TWO_64
    ensures OpenIndex(FileOf(l), paranoid) == Some((FooterOf(l).metaindex, l.index))
    ensures ReadBlock(FileOf(l), paranoid, FooterOf(l).metaindex) == Some(l.meta) &&
      Block.Ascending(CompareBytes, items)
    ensures FilterNamed(FileOf(l), paranoid, items, FilterKey(name)) == if name == l.name then l.filter else None
  {
    hide ReadBlock, Stored, EncodeFooter, DecodeFooter, EncodeHandle, DecodeHandle, IsBlock, FilterKey, CompareBytes;
    Lengths(l);
    var file := FileOf(l);
    FooterRoundTrip(FooterOf(l));
    assert file[|file| - FOOTER_LENGTH..] == EncodeFooter(FooterOf(l));
    BlockReturns(WithMeta(l), l.index, EncodeFooter(FooterOf(l)), paranoid);
    BlockReturns(WithFilter(l), l.meta, Stored(l.index) + EncodeFooter(FooterOf(l)), paranoid);
    assert file == WithFilter(l) + Stored(l.meta) + (Stored(l.index) + EncodeFooter(FooterOf(l)));
    if l.filter.Some? {
      var after := Stored(l.meta) + (Stored(l.index) + EncodeFooter(FooterOf(l)));
      BlockReturns(l.data, l.filter.value, after, paranoid);
      assert file == l.data + Stored(l.filter.value) + after;
      var h := Handle(|l.data|, |l.filter.value|);
      HandleRoundTrip(h, []);
      assert EncodeHandle(h) + [] == EncodeHandle(h);
      KeysDiffer(name, l.name);
      OneItem(items, FilterKey(name));
    }
  }

  lemma {:induction false} OneItem(items: seq<Item>, key: Bytes)
    requires |items| == 1
    ensures ValueOf(items, key) == if items[0].key == key then Some(items[0].value) else None
  {
    assert ValueOf(items[1..], key) == None;
  }

  lemma {:induction false} KeysDiffer(a: Bytes, b: Bytes)
    ensures FilterKey(a) == FilterKey(b) <==> a == b
  {
    assert FilterKey(a)[7..] == a && FilterKey(b)[7..] == b;
  }

  lemma {:induction false} Lengths(l: Layout)
    requires |FileOf(l)| < TWO_64
    ensures FooterOf(l).metaindex.Fits() && FooterOf(l).index.Fits()
    ensures l.filter.Some? ==> Handle(|l.data|, |l.filter.value|).Fits()
  {
    hide Stamp;
  }

  /** The index block of a file that was opened is sought as the index was when the table was built,
      and data blocks are where they were. */
  lemma {:induction false} IndexSought(l: Layout, index: seq<Entry>, items: seq<Item>, at: seq<nat>, k: IKey, pos: nat)
    requires IndexOk(l, index, items, at) && Sorted(index)
    ensures Block.Transitive(CompareEncoded) && Block.Ascending(CompareEncoded, items)
    ensures Block.IsSeek(CompareEncoded, items, Encode(k), pos) <==> pos == Cursors.LowerBound(index, k)
    ensures forall verify, h :: ReadBlock(l.data, verify, h).Some? ==>
        ReadBlock(FileOf(l), verify, h) == ReadBlock(l.data, verify, h)
  {
    hide Encode, CompareEncoded, ReadBlock, Stored, EncodeFooter, FooterOf;
    BlockOfEntries(items, index, k, pos);
    var more := FileOf(l)[|l.data|..];
    assert FileOf(l) == l.data + more;
    forall verify, h | ReadBlock(l.data, verify, h).Some?
      ensures ReadBlock(FileOf(l), verify, h) == ReadBlock(l.data, verify, h)
    {
      StillReads(l.data, more, verify, h);
    }
  }
}
