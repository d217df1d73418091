/** Encoded internal keys, block handles and the table footer. */
module Format {
  import opened ByteStrings
  import opened InternalKeys
  import opened Reads
  import opened Cursors
  import opened Coding
  import opened BlockBuilder
  import opened Block

  lemma {:induction false} TagFits(k: IKey)
    ensures Tag(k) < TWO_64
  {
  }

  /** The user key and an eight-byte tag. */
  function Encode(k: IKey): (b: Bytes)
    ensures |b| == |k.user| + 8
  {
    TagFits(k);
    k.user + EncodeFixed64(Tag(k))
  }

  function UserPart(b: Bytes): Bytes {
    if |b| < 8 then [] else b[..|b| - 8]
  }

  function TagPart(b: Bytes): nat {
    if |b| < 8 then 0 else FixedValue(b[|b| - 8..])
  }

  /** The internal key comparator on encoded keys. */
  function CompareEncoded(a: Bytes, b: Bytes): int {
    var r := CompareBytes(UserPart(a), UserPart(b));
    if r != 0 then r
    else if TagPart(a) > TagPart(b) then -1
    else if TagPart(a) < TagPart(b) then 1
    else 0
  }

  lemma {:induction false} EncodedParts(k: IKey)
    ensures UserPart(Encode(k)) == k.user && TagPart(Encode(k)) == Tag(k)
  {
    hide EncodeFixed64;
    TagFits(k);
    assert Encode(k)[|k.user|..] == EncodeFixed64(Tag(k));
  }

  /** Comparing encodings is comparing keys. */
  lemma {:induction false} EncodedOrder(a: IKey, b: IKey)
    ensures CompareEncoded(Encode(a), Encode(b)) == Compare(a, b)
  {
    hide Encode, UserPart, TagPart;
    EncodedParts(a);
    EncodedParts(b);
  }

  lemma {:induction false} EncodedTransitive()
    ensures Transitive(CompareEncoded)
  {
    hide UserPart, TagPart;
    forall a, b, c {:trigger CompareEncoded(a, b), CompareEncoded(b, c)} | CompareEncoded(a, b) < 0 &&
        CompareEncoded(b, c) < 0
      ensures CompareEncoded(a, c) < 0
    {
    }
  }

  /** The items of a block are the encodings of these entries. */
  ghost predicate Encodes(items: seq<Item>, es: seq<Entry>) {
    |items| == |es| && forall i :: 0 <= i < |es| ==> items[i].key == Encode(es[i].key) && items[i].value == es[i].value
  }

  /** A block of encoded entries meets what its iterator asks for, and its iterator's seek is
      the seek by internal key. */
  lemma {:induction false} BlockOfEntries(items: seq<Item>, es: seq<Entry>, target: IKey, pos: nat)
    requires Encodes(items, es) && Sorted(es)
    ensures Transitive(CompareEncoded) && Ascending(CompareEncoded, items)
    ensures IsSeek(CompareEncoded, items, Encode(target), pos) <==> pos == LowerBound(es, target)
  {
    hide Encode, CompareEncoded;
    EncodedTransitive();
    forall i, j {:trigger CompareEncoded(items[i].key, items[j].key)} | 0 <= i < j < |items|
      ensures CompareEncoded(items[i].key, items[j].key) < 0
    {
      assert Before(es[i].key, es[j].key);
      EncodedOrder(es[i].key, es[j].key);
    }
    forall i | 0 <= i < |es|
      ensures CompareEncoded(items[i].key, Encode(target)) < 0 <==> Before(es[i].key, target)
    {
      EncodedOrder(es[i].key, target);
    }
    SeekIsLowerBound(items, es, target, pos);
  }

  lemma {:induction false} SeekIsLowerBound(items: seq<Item>, es: seq<Entry>, target: IKey, pos: nat)
    requires |items| == |es|
    requires forall i :: 0 <= i < |es| ==>
        (CompareEncoded(items[i].key, Encode(target)) < 0 <==> Before(es[i].key, target))
    ensures IsSeek(CompareEncoded, items, Encode(target), pos) <==> pos == LowerBound(es, target)
  {
    hide Encode, CompareEncoded;
    if IsSeek(CompareEncoded, items, Encode(target), pos) {
      LowerBoundUnique(es, target, pos);
    }
  }

  // ----- handles and the footer

  datatype Handle = Handle(offset: nat, size: nat) {
    ghost predicate Fits() { offset < TWO_64 && size < TWO_64 }
  }

  function EncodeHandle(h: Handle): Bytes {
    Varint(h.offset) + Varint(h.size)
  }

  function DecodeHandle(input: Bytes): (r: Option<Parsed<Handle>>) {
    match GetVarint64(input)
    case None => None
    case Some(o) =>
      match GetVarint64(o.rest)
      case None => None
      case Some(s) => Some(Parsed(Handle(o.value, s.value), s.rest))
  }

  lemma {:induction false} HandleRoundTrip(h: Handle, rest: Bytes)
    requires h.Fits()
    ensures DecodeHandle(EncodeHandle(h) + rest) == Some(Parsed(h, rest))
  {
    hide Varint, GetVarint64;
    assert EncodeHandle(h) + rest == Varint(h.offset) + (Varint(h.size) + rest);
    Varint64RoundTrip(h.offset, Varint(h.size) + rest);
    Varint64RoundTrip(h.size, rest);
  }

  const MAX_HANDLE_LENGTH: nat := 20
  const FOOTER_LENGTH: nat := 48
  const TABLE_MAGIC: nat := 0xdb47_7524_8b80_fb57

  datatype Footer = Footer(metaindex: Handle, index: Handle)

  /** Both handles, padded to their greatest length, and the magic number. */
  function EncodeFooter(f: Footer): Bytes {
    var handles := EncodeHandle(f.metaindex) + EncodeHandle(f.index);
    (if |handles| < 2 * MAX_HANDLE_LENGTH
        then handles + seq(2 * MAX_HANDLE_LENGTH - |handles|, _ => 0) else handles[..2 * MAX_HANDLE_LENGTH])
    + EncodeFixed32(TABLE_MAGIC % TWO_32) + EncodeFixed32(TABLE_MAGIC / TWO_32)
  }

  function DecodeFooter(input: Bytes): Option<Footer>
    requires |input| >= FOOTER_LENGTH
  {
    var at := FOOTER_LENGTH - 8;
    if FixedValue(input[at..at + 4]) + TWO_32 * FixedValue(input[at + 4..at + 8]) != TABLE_MAGIC then None
    else
      match DecodeHandle(input)
      case None => None
      case Some(m) =>
        match DecodeHandle(m.rest)
        case None => None
        case Some(i) => Some(Footer(m.value, i.value))
  }

  lemma {:induction false} VarintLength(v: nat, most: nat)
    requires 0 < most && v < Power(128, most)
    ensures |Varint(v)| <= most
  {
    if v >= 128 {
      Shrinks(v, most);
      VarintLength(v / 128, most - 1);
    }
  }

  lemma {:induction false} HandleLength(h: Handle)
    requires h.Fits()
    ensures |EncodeHandle(h)| <= MAX_HANDLE_LENGTH
  {
    hide Power, Varint;
    TenSevens();
    VarintLength(h.offset, 10);
    VarintLength(h.size, 10);
  }

  lemma {:induction false} FooterRoundTrip(f: Footer)
    requires f.metaindex.Fits() && f.index.Fits()
    ensures |EncodeFooter(f)| == FOOTER_LENGTH && DecodeFooter(EncodeFooter(f)) == Some(f)
  {
    hide EncodeHandle, DecodeHandle, FixedValue, EncodeFixed32;
    HandleLength(f.metaindex);
    HandleLength(f.index);
    var b, a, i := EncodeFooter(f), EncodeHandle(f.metaindex), EncodeHandle(f.index);
    var pad: Bytes := seq(2 * MAX_HANDLE_LENGTH - |a + i|, _ => 0);
    var magic := EncodeFixed32(TABLE_MAGIC % TWO_32) + EncodeFixed32(TABLE_MAGIC / TWO_32);
    assert b == a + (i + (pad + magic));
    HandleRoundTrip(f.metaindex, i + (pad + magic));
    HandleRoundTrip(f.index, pad + magic);
    assert b[40..44] == EncodeFixed32(TABLE_MAGIC % TWO_32) && b[44..48] == EncodeFixed32(TABLE_MAGIC / TWO_32);
  }

  /** Nothing is a footer that does not end with these eight bytes. */
  lemma {:induction false} FooterNeedsMagic(input: Bytes)
    requires |input| == FOOTER_LENGTH && DecodeFooter(input).Some?
    ensures input[40..] == [0x57, 0xfb, 0x80, 0x8b, 0x24, 0x75, 0x47, 0xdb]
  {
    hide DecodeHandle, FixedValue;
    var low, high := input[40..44], input[44..48];
    FixedValueReturns(low);
    FixedValueReturns(high);
    MagicBytes(FixedValue(low), FixedValue(high));
    assert input[40..] == low + high;
  }

  lemma {:induction false} MagicBytes(low: nat, high: nat)
    requires low < Power(256, 4) && low + TWO_32 * high == TABLE_MAGIC
    ensures Fixed(low, 4) == [0x57, 0xfb, 0x80, 0x8b] && Fixed(high, 4) == [0x24, 0x75, 0x47, 0xdb]
  {
    assert Power(256, 4) == TWO_32;
    assert low == 0x8b80_fb57 && high == 0xdb47_7524;
    assert Fixed(0x8b80_fb57, 4) == [0x57, 0xfb, 0x80, 0x8b];
    assert Fixed(0xdb47_7524, 4) == [0x24, 0x75, 0x47, 0xdb];
  }
}
