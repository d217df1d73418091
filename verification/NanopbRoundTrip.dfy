/** What is encoded under a descriptor comes back under any part of that descriptor. */
module NanopbRoundTrip {
  import opened ByteStrings
  import opened Reads
  import opened Coding
  import opened Nanopb
  import opened NanopbEncode
  import opened NanopbDecode

  // ----- scalars

  /** A value that fits its field and, if a string, is terminated. */
  ghost predicate FitsScalar(f: Field, v: Value) {
    match f.kind
    case SignedVarint => v.Int? && InSigned(v.v, f.dataSize)
    case ZigZag => v.Int? && InSigned(v.v, f.dataSize)
    case UnsignedVarint => v.Int? && InUnsigned(v.v, f.dataSize)
    case Fixed32 => v.Int? && InUnsigned(v.v, 4)
    case Fixed64 => v.Int? && InUnsigned(v.v, 8)
    case ByteArray => v.Blob? && |v.b| + SIZE_BYTES <= f.dataSize
    case Text => v.Blob? && |v.b| + 1 <= f.dataSize && 0 !in v.b
    case FixedBytes => v.Blob? && |v.b| == f.dataSize
    case Submessage => false
  }

  lemma {:induction false} SignedReturns(v: int, size: nat)
    requires InSigned(v, size)
    ensures v % TWO_64 < TWO_64 && NarrowSigned(v % TWO_64, size) == Some(v)
  {
  }

  lemma {:induction false} ZigZagReturns(v: int, size: nat)
    requires InSigned(v, size)
    ensures ZigZagged(v) < TWO_64 && NarrowZigZag(ZigZagged(v), size) == Some(v)
  {
  }

  lemma {:induction false} TextWhole(b: Bytes)
    requires 0 !in b
    ensures TextOf(b) == b
  {
    if b != [] {
      TextWhole(b[1..]);
    }
  }

  lemma {:induction false} TakesAll(b: Bytes, rest: Bytes)
    ensures Take(b + rest, |b|) == Some(Parsed(b, rest))
  {
  }

  lemma {:induction false} LengthReturns(b: Bytes, rest: Bytes)
    requires |b| < TWO_32
    ensures GetVarint32(WithLength(b) + rest) == Some(Parsed(|b|, b + rest))
    ensures TakeString(WithLength(b) + rest) == Some(Parsed(b, rest))
  {
    hide Varint, GetVarint32;
    assert WithLength(b) + rest == Varint(|b|) + (b + rest);
    Varint32RoundTrip(|b|, b + rest);
    TakesAll(b, rest);
  }

  lemma {:induction false} VarintsReturn(f: Field, v: Value, rest: Bytes)
    requires (f.kind.SignedVarint? || f.kind.UnsignedVarint? || f.kind.ZigZag?) && FitsScalar(f, v)
    ensures EncodeValue(f, v).Some?
    ensures DecodeScalar(f, EncodeValue(f, v).value + rest) == Some(Parsed(v, rest))
  {
    hide Varint, GetVarint64, ZigZagged, NarrowSigned, NarrowZigZag;
    if f.kind.SignedVarint? {
      SignedReturns(v.v, f.dataSize);
      Varint64RoundTrip(v.v % TWO_64, rest);
    } else if f.kind.UnsignedVarint? {
      Varint64RoundTrip(v.v, rest);
    } else {
      ZigZagReturns(v.v, f.dataSize);
      Varint64RoundTrip(ZigZagged(v.v), rest);
    }
  }

  lemma {:induction false} ScalarReturns(f: Field, v: Value, rest: Bytes)
    requires FitsScalar(f, v) && f.dataSize < TWO_32
    ensures EncodeValue(f, v).Some?
    ensures DecodeScalar(f, EncodeValue(f, v).value + rest) == Some(Parsed(v, rest))
  {
    hide Varint, GetVarint32, GetVarint64, EncodeFixed32, EncodeFixed64, WithLength, FixedValue;
    if f.kind.SignedVarint? || f.kind.UnsignedVarint? || f.kind.ZigZag? {
      VarintsReturn(f, v, rest);
    } else if f.kind.Fixed32? {
      TakesAll(EncodeFixed32(v.v), rest);
    } else if f.kind.Fixed64? {
      TakesAll(EncodeFixed64(v.v), rest);
    } else {
      if f.kind.Text? {
        TextWhole(v.b);
      }
      LengthReturns(v.b, rest);
      TakesAll(v.b, rest);
      if v.b == [] {
        assert v.b + rest == rest && v.b == seq(|v.b|, _ => 0);
      }
    }
  }

  /** A reader that does not know the field gets past it all the same. */
  lemma {:induction false} ScalarSkips(f: Field, v: Value, rest: Bytes)
    requires FitsScalar(f, v) && f.dataSize < TWO_32
    ensures SkipField(WireType(f.kind), EncodeValue(f, v).value + rest) == Some(rest)
  {
    hide Varint, EncodeFixed32, EncodeFixed64, WithLength, TakeString, SkipVarint;
    var b := EncodeValue(f, v).value;
    if f.kind.Fixed32? {
      TakesAll(EncodeFixed32(v.v), rest);
    } else if f.kind.Fixed64? {
      TakesAll(EncodeFixed64(v.v), rest);
    } else if f.kind.SignedVarint? {
      VarintSkips(v.v % TWO_64, rest);
    } else if f.kind.UnsignedVarint? {
      VarintSkips(v.v, rest);
    } else if f.kind.ZigZag? {
      VarintSkips(ZigZagged(v.v), rest);
    } else {
      if f.kind.Text? {
        TextWhole(v.b);
      }
      LengthReturns(v.b, rest);
    }
  }

  lemma {:induction false} VarintSkips(v: nat, rest: Bytes)
    ensures SkipVarint(Varint(v) + rest) == Some(rest)
    decreases v
  {
    var b := Varint(v) + rest;
    if v < 128 {
      assert b[1..] == rest;
    } else {
      assert b[1..] == Varint(v / 128) + rest;
      VarintSkips(v / 128, rest);
    }
  }

  // ----- descriptors and messages

  /** The second descriptor has these fields and maybe more, at every depth. */
  ghost predicate PartOf(d': seq<Field>, d: seq<Field>)
    decreases d'
  {
    forall j :: 0 <= j < |d'| ==> Find(d, d'[j].tag).Some? && SameField(d'[j], d[Find(d, d'[j].tag).value])
  }

  ghost predicate SameField(f': Field, f: Field)
    decreases f'
  {
    && f'.tag == f.tag && f'.kind == f.kind && f'.rule == f.rule && f'.dataSize == f.dataSize
    && (f.kind.Submessage? ==> PartOf(f'.sub, f.sub))
  }

  /** The value can be encoded and fits the field it is decoded into. */
  ghost predicate Fits(f: Field, v: Value)
    decreases f, 0
  {
    if f.kind.Submessage? then v.Message? && FitsMessage(f.sub, v.slots) else FitsScalar(f, v)
  }

  ghost predicate FitsSlot(f: Field, s: Slot)
    decreases f, 1
  {
    match f.rule
    case Required => s.One? && Fits(f, s.value)
    case Optional(explicit) =>
      if explicit then s.Maybe? && (s.has ==> Fits(f, s.value)) else s.One? && Fits(f, s.value)
    case Repeated(n) => s.Many? && |s.items| <= n && forall v :: v in s.items ==> Fits(f, v)
    case OneOf(_) => s.Choice? && (s.chosen.Some? ==> Fits(f, s.chosen.value))
  }

  /** At most one member of a union is selected. */
  ghost predicate FitsMessage(d: seq<Field>, m: seq<Slot>)
    decreases d
  {
    && |m| == |d|
    && (forall i :: 0 <= i < |d| ==> FitsSlot(d[i], m[i]))
    && forall i, j :: SameUnion(d, i, j) && m[i] != Choice(None) ==> m[j] == Choice(None)
  }

  ghost predicate SameUnion(d: seq<Field>, i: int, j: int) {
    0 <= i < |d| && 0 <= j < |d| && i != j && d[i].rule.OneOf? && d[j].rule == d[i].rule
  }

  // ----- restricting a message to part of its descriptor

  ghost function RestrictValue(f': Field, f: Field, v: Value): Value
    decreases f', 0
  {
    if f'.kind.Submessage? && v.Message? then Message(Restrict(f'.sub, f.sub, v.slots)) else v
  }

  ghost function RestrictItems(f': Field, f: Field, items: seq<Value>): (r: seq<Value>)
    ensures |r| == |items|
    decreases f', 1
  {
    seq(|items|, i requires 0 <= i < |items| => RestrictValue(f', f, items[i]))
  }

  /** An optional value that is not there reads as the default. */
  ghost function RestrictSlot(f': Field, f: Field, s: Slot): Slot
    decreases f', 2
  {
    match s
    case One(v) => One(RestrictValue(f', f, v))
    case Maybe(has, v) => if has then Maybe(true, RestrictValue(f', f, v)) else DefaultSlot(f')
    case Many(items) => Many(RestrictItems(f', f, items))
    case Choice(c) => if c.Some? then Choice(Some(RestrictValue(f', f, c.value))) else Choice(None)
  }

  /** The message that has, for each field of the smaller descriptor, what the larger one's
      message has for it. */
  ghost function Restrict(d': seq<Field>, d: seq<Field>, m: seq<Slot>): (r: seq<Slot>)
    ensures |r| == |d'|
    decreases d'
  {
    seq(|d'|, j requires 0 <= j < |d'| =>
      match Find(d, d'[j].tag)
      case None => DefaultSlot(d'[j])
      case Some(i) => if i < |m| then RestrictSlot(d'[j], d[i], m[i]) else DefaultSlot(d'[j]))
  }

  // ----- one record

  lemma {:induction false} TagReturns(f: Field, wireType: nat, rest: Bytes)
    requires 1 <= f.tag < 0x2000_0000 && wireType < 8
    ensures ReadTag(Tag(wireType, f.tag) + rest) == TagRead(wireType, f.tag, rest)
    ensures Tag(wireType, f.tag) + rest != []
  {
    hide Varint, GetVarint32;
    Varint32RoundTrip(f.tag * 8 + wireType, rest);
  }

  /** Reading a record of a field the descriptor does not have. */
  lemma {:induction false} SkipsRecord(d': seq<Field>, f: Field, wireType: nat, payload: Bytes, rest: Bytes,
        m: seq<Slot>, seen: set<nat>)
    requires |m| == |d'| && 1 <= f.tag < 0x2000_0000 && wireType < 8 && Find(d', f.tag).None?
    requires SkipField(wireType, payload + rest) == Some(rest)
    ensures DecodeFields(d', Tag(wireType, f.tag) + payload + rest, m, seen) == DecodeFields(d', rest, m, seen)
  {
    hide Tag, ReadTag, SkipField, Find;
    assert Tag(wireType, f.tag) + payload + rest == Tag(wireType, f.tag) + (payload + rest);
    TagReturns(f, wireType, payload + rest);
  }

  /** Reading a record of a field the descriptor has. */
  lemma {:induction false} TakesRecord(d': seq<Field>, j: nat, wireType: nat, payload: Bytes, rest: Bytes,
        m: seq<Slot>, seen: set<nat>, slot: Slot)
    requires |m| == |d'| && j < |d'| && Find(d', d'[j].tag) == Some(j) && 1 <= d'[j].tag < 0x2000_0000 && wireType < 8
    requires DecodeSlot(d'[j], m[j], wireType, payload + rest) == Some(Parsed(slot, rest))
    ensures DecodeFields(d', Tag(wireType, d'[j].tag) + payload + rest, m, seen)
         == DecodeFields(d', rest, Stored(d', m, j, slot), seen + {j})
  {
    hide Tag, ReadTag, DecodeSlot, Find, Stored;
    assert Tag(wireType, d'[j].tag) + payload + rest == Tag(wireType, d'[j].tag) + (payload + rest);
    TagReturns(d'[j], wireType, payload + rest);
  }

  // ----- everything that fits can be encoded

  lemma {:induction false} ValueEncodes(f: Field, v: Value)
    requires FieldOk(f) && Fits(f, v)
    ensures EncodeValue(f, v).Some?
    decreases f, 0
  {
    hide Varint, EncodeFixed32, EncodeFixed64, Coding.Varint;
    if f.kind.Submessage? {
      MessageEncodes(f.sub, v.slots, 0);
    } else {
      ScalarReturns(f, v, []);
    }
  }

  lemma {:induction false} ItemsEncode(f: Field, items: seq<Value>, i: nat)
    requires FieldOk(f) && i <= |items| && forall v :: v in items ==> Fits(f, v)
    ensures EncodeItems(f, items, i).Some? && EncodeTagged(f, items, i).Some?
    decreases f, 1, |items| - i
  {
    hide EncodeValue, TagOf;
    if i < |items| {
      assert items[i] in items;
      ValueEncodes(f, items[i]);
      ItemsEncode(f, items, i + 1);
    }
  }

  lemma {:induction false} SlotEncodes(f: Field, s: Slot)
    requires FieldOk(f) && FitsSlot(f, s)
    ensures EncodeSlot(f, s).Some?
    decreases f, 2
  {
    hide EncodeValue, TagOf, EncodeItems, EncodeTagged, Fits;
    match s
    case One(v) => ValueEncodes(f, v);
    case Maybe(has, v) => if has { ValueEncodes(f, v); }
    case Many(items) => ItemsEncode(f, items, 0);
    case Choice(c) => if c.Some? { ValueEncodes(f, c.value); }
  }

  lemma {:induction false} MessageEncodes(d: seq<Field>, m: seq<Slot>, i: nat)
    requires WellFormed(d) && FitsMessage(d, m) && i <= |d|
    ensures EncodeFrom(d, m, i).Some?
    decreases d, |d| - i
  {
    hide EncodeSlot, FitsSlot;
    if i < |d| {
      assert FieldOk(d[i]) && FitsSlot(d[i], m[i]);
      SlotEncodes(d[i], m[i]);
      MessageEncodes(d, m, i + 1);
    }
  }

  // ----- one value

  /** A reader that does not know the field gets past its value. */
  lemma {:induction false} ValueSkips(f: Field, v: Value, rest: Bytes)
    requires FieldOk(f) && Fits(f, v) && EncodeValue(f, v).Some? && |EncodeValue(f, v).value| < TWO_32
    ensures SkipField(WireType(f.kind), EncodeValue(f, v).value + rest) == Some(rest)
  {
    hide EncodeFrom, Varint, TakeString;
    if f.kind.Submessage? {
      LengthReturns(EncodeFrom(f.sub, v.slots, 0).value, rest);
    } else {
      ScalarSkips(f, v, rest);
    }
  }

  lemma {:induction false} SameScalar(f': Field, f: Field, input: Bytes)
    requires f'.kind == f.kind && f'.dataSize == f.dataSize
    ensures DecodeScalar(f', input) == DecodeScalar(f, input)
  {
  }

  lemma {:induction false} ValueReturns(f': Field, f: Field, v: Value, rest: Bytes)
    requires SameField(f', f) && FieldOk(f') && FieldOk(f) && Fits(f, v)
    requires EncodeValue(f, v).Some? && |EncodeValue(f, v).value| < TWO_32
    ensures DecodeValue(f', DefaultValue(f'), EncodeValue(f, v).value + rest) ==
        Some(Parsed(RestrictValue(f', f, v), rest))
    decreases f, 0
  {
    if f.kind.Submessage? {
      hide EncodeFrom, TakeString, DecodeMessage, WellFormed, FitsMessage, PartOf, Restrict, Defaults, Varint;
      var b := EncodeFrom(f.sub, v.slots, 0).value;
      LengthReturns(b, rest);
      MessageReturns(f'.sub, f.sub, v.slots);
    } else {
      hide EncodeValue, DecodeScalar;
      ScalarReturns(f, v, rest);
      SameScalar(f', f, EncodeValue(f, v).value + rest);
    }
  }

  lemma {:induction false} MessageReturns(d': seq<Field>, d: seq<Field>, m: seq<Slot>)
    requires WellFormed(d') && WellFormed(d) && PartOf(d', d) && FitsMessage(d, m)
    requires EncodeFrom(d, m, 0).Some? && |EncodeFrom(d, m, 0).value| < TWO_32
    ensures DecodeMessage(d', EncodeFrom(d, m, 0).value, Defaults(d')) == Some(Restrict(d', d, m))
    ensures Unread(d', EncodeFrom(d, m, 0).value, Defaults(d')) == []
    decreases d, |d| + 1
  {
    hide EncodeFrom, DecodeFields, WellFormed, PartOf, FitsSlot, Find;
    assert Upto(d', d, m, 0) == Defaults(d');
    FieldsReturn(d', d, m, 0, {});
    UptoAll(d', d, m);
    forall j | 0 <= j < |d'|
      ensures Find(d, d'[j].tag).Some?
    {
      PartFacts(d', d, j);
    }
  }

  lemma {:induction false} PartFacts(d': seq<Field>, d: seq<Field>, j: nat)
    requires PartOf(d', d) && j < |d'|
    ensures Find(d, d'[j].tag).Some? && SameField(d'[j], d[Find(d, d'[j].tag).value])
  {
  }

  /** The message while the first `n` fields have been decoded. */
  ghost function Upto(d': seq<Field>, d: seq<Field>, m: seq<Slot>, n: nat): (r: seq<Slot>)
    ensures |r| == |d'|
  {
    seq(|d'|, j requires 0 <= j < |d'| => UptoSlot(d'[j], d, m, n))
  }

  ghost function UptoSlot(f': Field, d: seq<Field>, m: seq<Slot>, n: nat): Slot {
    match Find(d, f'.tag)
    case None => DefaultSlot(f')
    case Some(i) => if i < n && i < |m| then RestrictSlot(f', d[i], m[i]) else DefaultSlot(f')
  }

  lemma {:induction false} UptoAll(d': seq<Field>, d: seq<Field>, m: seq<Slot>)
    requires |m| == |d|
    ensures Upto(d', d, m, |d|) == Restrict(d', d, m)
  {
  }

  lemma {:induction false} FieldsReturn(d': seq<Field>, d: seq<Field>, m: seq<Slot>, i: nat, seen: set<nat>)
    requires WellFormed(d') && WellFormed(d) && PartOf(d', d) && FitsMessage(d, m) && i <= |d|
    requires EncodeFrom(d, m, i).Some? && |EncodeFrom(d, m, i).value| < TWO_32
    ensures var r := DecodeFields(d', EncodeFrom(d, m, i).value, Upto(d', d, m, i), seen);
      && r.Some? && r.value.m == Upto(d', d, m, |d|) && seen <= r.value.seen && r.value.unread == []
      && forall j :: 0 <= j < |d'| && d'[j].rule.Required? && Find(d, d'[j].tag).Some? && Find(d, d'[j].tag).value >= i ==> j in r.value.seen
    decreases d, |d| - i
  {
    hide EncodeSlot, DecodeFields, WellFormed, PartOf, FitsMessage, Upto;
    if i < |d| {
      var chunk, rest := EncodeSlot(d[i], m[i]).value, EncodeFrom(d, m, i + 1).value;
      var seen' := SlotReturns(d', d, m, i, rest, seen);
      FieldsReturn(d', d, m, i + 1, seen');
    } else {
      NothingMore(d', Upto(d', d, m, i), seen);
      NoLaterFields(d', d, i);
    }
  }

  lemma {:induction false} NothingMore(d': seq<Field>, m: seq<Slot>, seen: set<nat>)
    requires |m| == |d'|
    ensures DecodeFields(d', [], m, seen) == Some(Progress(m, seen, []))
  {
  }

  lemma {:induction false} NoLaterFields(d': seq<Field>, d: seq<Field>, i: nat)
    requires i == |d|
    ensures forall j :: 0 <= j < |d'| && Find(d, d'[j].tag).Some? ==> Find(d, d'[j].tag).value < i
  {
  }

  /** The records of field `i` move the message on by that field. */
  lemma {:induction false} SlotReturns(d': seq<Field>, d: seq<Field>, m: seq<Slot>, i: nat, rest: Bytes,
        seen: set<nat>) returns (seen': set<nat>)
    requires WellFormed(d') && WellFormed(d) && PartOf(d', d) && FitsMessage(d, m) && i < |d| == |m|
    requires EncodeSlot(d[i], m[i]).Some? && |EncodeSlot(d[i], m[i]).value| < TWO_32
    ensures DecodeFields(d', EncodeSlot(d[i], m[i]).value + rest, Upto(d', d, m, i), seen)
         == DecodeFields(d', rest, Upto(d', d, m, i + 1), seen')
    ensures seen <= seen'
    ensures forall j :: 0 <= j < |d'| && d'[j].rule.Required? && Find(d, d'[j].tag) == Some(i) ==> j in seen'
    decreases d, 0
  {
    hide EncodeSlot, DecodeFields, WellFormed, PartOf, FitsSlot, Upto, Find, RestrictSlot;
    seen' := seen;
    match Find(d', d[i].tag)
    case None =>
      FieldUnknown(d', d, m, i);
      UnknownSlot(d', d[i], m[i], Upto(d', d, m, i), rest, seen);
    case Some(j) =>
      FieldKnown(d', d, m, i, j);
      UnionClear(d', d, m, i, j);
      seen' := KnownSlot(d', j, d[i], m[i], Upto(d', d, m, i), rest, seen);
  }

  lemma {:induction false} FieldUnknown(d': seq<Field>, d: seq<Field>, m: seq<Slot>, i: nat)
    requires WellFormed(d) && FitsMessage(d, m) && i < |d| == |m| && Find(d', d[i].tag).None?
    ensures FieldOk(d[i]) && FitsSlot(d[i], m[i])
    ensures forall j :: 0 <= j < |d'| ==> Find(d, d'[j].tag) != Some(i)
    ensures Upto(d', d, m, i + 1) == Upto(d', d, m, i)
  {
    hide RestrictSlot, FitsSlot, FieldOk;
  }

  /** The field's place in the smaller descriptor, and what that means for the message. */
  lemma {:induction false} FieldKnown(d': seq<Field>, d: seq<Field>, m: seq<Slot>, i: nat, j: nat)
    requires WellFormed(d') && WellFormed(d) && PartOf(d', d) && FitsMessage(d, m) && i < |d| == |m| &&
      Find(d', d[i].tag) == Some(j)
    ensures j < |d'| && Find(d', d'[j].tag) == Some(j) && Find(d, d'[j].tag) == Some(i)
    ensures SameField(d'[j], d[i]) && FieldOk(d'[j]) && FieldOk(d[i]) && FitsSlot(d[i], m[i])
    ensures forall k :: 0 <= k < |d'| && k != j ==> Find(d, d'[k].tag) != Some(i)
    ensures Upto(d', d, m, i)[j] == DefaultSlot(d'[j])
    ensures Upto(d', d, m, i + 1) == Upto(d', d, m, i)[j := RestrictSlot(d'[j], d[i], m[i])]
  {
    hide RestrictSlot, FitsSlot, FieldOk, SameField, DefaultSlot;
    assert d'[j].tag == d[i].tag;
    PartFacts(d', d, j);
  }

  /** If the field is the selected member of a union, the other members are not selected yet. */
  lemma {:induction false} UnionClear(d': seq<Field>, d: seq<Field>, m: seq<Slot>, i: nat, j: nat)
    requires WellFormed(d') && WellFormed(d) && PartOf(d', d) && FitsMessage(d, m) && i < |d| == |m| &&
      Find(d', d[i].tag) == Some(j)
    ensures m[i] != Choice(None) ==> forall k {:trigger SameUnion(d', j, k)} :: SameUnion(d', j, k) ==>
        Upto(d', d, m, i)[k] == Choice(None)
  {
    FieldKnown(d', d, m, i, j);
    hide FitsSlot, FieldOk, PartOf, WellFormed, Find;
    if m[i] != Choice(None) {
      forall k {:trigger SameUnion(d', j, k)} | SameUnion(d', j, k)
        ensures Upto(d', d, m, i)[k] == Choice(None)
      {
        PartFacts(d', d, k);
        var n := Find(d, d'[k].tag).value;
        assert SameUnion(d, i, n);
      }
    }
  }

  // ----- a slot the reader does not know

  lemma {:induction false} UnknownRecord(d': seq<Field>, f: Field, v: Value, m: seq<Slot>, rest: Bytes, seen: set<nat>)
    requires |m| == |d'| && FieldOk(f) && Fits(f, v) && Find(d', f.tag).None?
    requires EncodeValue(f, v).Some? && |EncodeValue(f, v).value| < TWO_32
    ensures DecodeFields(d', TagOf(f) + EncodeValue(f, v).value + rest, m, seen) == DecodeFields(d', rest, m, seen)
  {
    hide EncodeValue, Fits, SkipField, DecodeFields, Tag, Find;
    ValueSkips(f, v, rest);
    SkipsRecord(d', f, WireType(f.kind), EncodeValue(f, v).value, rest, m, seen);
  }

  lemma {:induction false} UnknownItems(d': seq<Field>, f: Field, items: seq<Value>, i: nat, m: seq<Slot>,
        rest: Bytes, seen: set<nat>)
    requires |m| == |d'| && FieldOk(f) && Find(d', f.tag).None? && i <= |items| && forall v :: v in items ==> Fits(f, v)
    requires EncodeTagged(f, items, i).Some? && |EncodeTagged(f, items, i).value| < TWO_32
    ensures DecodeFields(d', EncodeTagged(f, items, i).value + rest, m, seen) == DecodeFields(d', rest, m, seen)
    decreases |items| - i
  {
    hide EncodeValue, Fits, DecodeFields, TagOf, Find;
    if i == |items| {
      assert [] + rest == rest;
    } else {
      var e, more := EncodeValue(f, items[i]).value, EncodeTagged(f, items, i + 1).value;
      assert items[i] in items;
      assert (TagOf(f) + e + more) + rest == TagOf(f) + e + (more + rest);
      UnknownRecord(d', f, items[i], m, more + rest, seen);
      UnknownItems(d', f, items, i + 1, m, rest, seen);
    }
  }

  lemma {:induction false} UnknownSlot(d': seq<Field>, f: Field, slot: Slot, m: seq<Slot>, rest: Bytes, seen: set<nat>)
    requires |m| == |d'| && FieldOk(f) && FitsSlot(f, slot) && Find(d', f.tag).None?
    requires EncodeSlot(f, slot).Some? && |EncodeSlot(f, slot).value| < TWO_32
    ensures DecodeFields(d', EncodeSlot(f, slot).value + rest, m, seen) == DecodeFields(d', rest, m, seen)
  {
    hide EncodeValue, Fits, DecodeFields, Tag, Find, EncodeItems, EncodeTagged, Varint;
    assert [] + rest == rest;
    match slot
    case One(v) => if EncodeSlot(f, slot) != Some([]) { UnknownRecord(d', f, v, m, rest, seen); }
    case Maybe(has, v) => if has { UnknownRecord(d', f, v, m, rest, seen); }
    case Choice(c) => if c.Some? { UnknownRecord(d', f, c.value, m, rest, seen); }
    case Many(items) =>
      if items != [] {
        if Packable(f.kind) {
          var b := EncodeItems(f, items, 0).value;
          assert Packed(f, Some(b)).value == Tag(WT_STRING, f.tag) + WithLength(b);
          LengthReturns(b, rest);
          SkipsRecord(d', f, WT_STRING, WithLength(b), rest, m, seen);
        } else {
          UnknownItems(d', f, items, 0, m, rest, seen);
        }
      }
  }

  // ----- a slot the reader knows

  /** Storing a field touches no other, unless it deselects them. */
  lemma {:induction false} StoresOne(d': seq<Field>, m: seq<Slot>, j: nat, slot: Slot)
    requires |m| == |d'| && j < |d'|
    requires forall k {:trigger SameUnion(d', j, k)} :: SameUnion(d', j, k) ==> m[k] == Choice(None)
    ensures Stored(d', m, j, slot) == m[j := slot]
  {
    forall k | 0 <= k < |m|
      ensures Stored(d', m, j, slot)[k] == m[j := slot][k]
    {
      assert SameUnion(d', j, k) || !SameUnion(d', j, k);
    }
  }

  lemma {:induction false} NotInUnion(d': seq<Field>, j: nat, m: seq<Slot>)
    requires j < |d'| && !d'[j].rule.OneOf?
    ensures forall k :: !SameUnion(d', j, k)
  {
  }

  /** One value, into a slot that holds the default. */
  lemma {:induction false} KnownRecord(d': seq<Field>, j: nat, f: Field, v: Value, slot: Slot, m: seq<Slot>,
        rest: Bytes, seen: set<nat>)
    requires |m| == |d'| && j < |d'| && Find(d', d'[j].tag) == Some(j)
    requires SameField(d'[j], f) && FieldOk(d'[j]) && FieldOk(f) && Fits(f, v) && m[j] == DefaultSlot(d'[j]) &&
      !f.rule.Repeated?
    requires forall k {:trigger SameUnion(d', j, k)} :: SameUnion(d', j, k) ==> m[k] == Choice(None)
    requires EncodeValue(f, v).Some? && |EncodeValue(f, v).value| < TWO_32
    requires FitsSlot(f, slot) && (slot == One(v) || slot == Maybe(true, v) || slot == Choice(Some(v)))
    ensures DecodeFields(d', TagOf(f) + EncodeValue(f, v).value + rest, m, seen)
         == DecodeFields(d', rest, m[j := RestrictSlot(d'[j], f, slot)], seen + {j})
    decreases f, 1
  {
    hide EncodeValue, Fits, DecodeFields, DecodeValue, Tag, Find, RestrictValue, DefaultValue, Stored;
    ValueReturns(d'[j], f, v, rest);
    TakesRecord(d', j, WireType(f.kind), EncodeValue(f, v).value, rest, m, seen, RestrictSlot(d'[j], f, slot));
    StoresOne(d', m, j, RestrictSlot(d'[j], f, slot));
  }

  /** Items of an array, each in its own record, append to those before. */
  lemma {:induction false} KnownItems(d': seq<Field>, j: nat, f: Field, items: seq<Value>, i: nat, m: seq<Slot>,
        rest: Bytes, seen: set<nat>) returns (seen': set<nat>)
    requires |m| == |d'| && j < |d'| && Find(d', d'[j].tag) == Some(j)
    requires SameField(d'[j], f) && FieldOk(d'[j]) && FieldOk(f) && f.rule.Repeated?
    requires i <= |items| <= f.rule.arraySize && forall v :: v in items ==> Fits(f, v)
    requires m[j] == Many(RestrictItems(d'[j], f, items)[..i])
    requires EncodeTagged(f, items, i).Some? && |EncodeTagged(f, items, i).value| < TWO_32
    ensures DecodeFields(d', EncodeTagged(f, items, i).value + rest, m, seen)
         == DecodeFields(d', rest, m[j := Many(RestrictItems(d'[j], f, items))], seen')
    ensures seen <= seen'
    decreases f, 1, |items| - i
  {
    hide EncodeValue, Fits, DecodeFields, DecodeValue, TagOf, Find, RestrictValue, DefaultValue, Stored, Packable;
    seen' := seen;
    var all := RestrictItems(d'[j], f, items);
    if i == |items| {
      assert [] + rest == rest && all[..i] == all && m[j := Many(all)] == m;
    } else {
      var e, more := EncodeValue(f, items[i]).value, EncodeTagged(f, items, i + 1).value;
      assert items[i] in items;
      assert (TagOf(f) + e + more) + rest == TagOf(f) + e + (more + rest);
      ItemTaken(d', j, f, items[i], all[..i], m, more + rest, seen);
      assert all[..i] + [all[i]] == all[..i + 1];
      var m' := m[j := Many(all[..i + 1])];
      seen' := KnownItems(d', j, f, items, i + 1, m', rest, seen + {j});
      assert m'[j := Many(all)] == m[j := Many(all)];
    }
  }

  lemma {:induction false} ItemTaken(d': seq<Field>, j: nat, f: Field, v: Value, before: seq<Value>, m: seq<Slot>,
        rest: Bytes, seen: set<nat>)
    requires |m| == |d'| && j < |d'| && Find(d', d'[j].tag) == Some(j)
    requires SameField(d'[j], f) && FieldOk(d'[j]) && FieldOk(f) && f.rule.Repeated?
    requires Fits(f, v) && |before| < f.rule.arraySize && m[j] == Many(before)
    requires EncodeValue(f, v).Some? && |EncodeValue(f, v).value| < TWO_32
    ensures DecodeFields(d', TagOf(f) + EncodeValue(f, v).value + rest, m, seen)
         == DecodeFields(d', rest, m[j := Many(before + [RestrictValue(d'[j], f, v)])], seen + {j})
    decreases f, 1, 0
  {
    hide EncodeValue, Fits, DecodeFields, DecodeValue, Tag, Find, RestrictValue, DefaultValue, Stored;
    var slot := Many(before + [RestrictValue(d'[j], f, v)]);
    ValueReturns(d'[j], f, v, rest);
    TakesRecord(d', j, WireType(f.kind), EncodeValue(f, v).value, rest, m, seen, slot);
    NotInUnion(d', j, m);
    StoresOne(d', m, j, slot);
  }

  /** A packed array comes back item by item. */
  lemma {:induction false} PackedReturns(f': Field, f: Field, items: seq<Value>, i: nat, n: nat)
    requires f'.kind == f.kind && f'.dataSize == f.dataSize && Packable(f.kind) && FieldOk(f)
    requires i <= |items| <= n && forall v :: v in items ==> Fits(f, v)
    requires EncodeItems(f, items, i).Some?
    ensures DecodePacked(f', items[..i], n, EncodeItems(f, items, i).value) == Some(items)
    decreases |items| - i
  {
    hide EncodeValue, DecodeScalar, FitsScalar;
    if i == |items| {
      assert items[..i] == items;
    } else {
      var more := EncodeItems(f, items, i + 1).value;
      assert items[i] in items;
      ScalarReturns(f, items[i], more);
      SameScalar(f', f, EncodeValue(f, items[i]).value + more);
      assert items[..i] + [items[i]] == items[..i + 1];
      PackedReturns(f', f, items, i + 1, n);
    }
  }

  lemma {:induction false} KnownPacked(d': seq<Field>, j: nat, f: Field, items: seq<Value>, m: seq<Slot>, rest: Bytes,
        seen: set<nat>)
    requires |m| == |d'| && j < |d'| && Find(d', d'[j].tag) == Some(j)
    requires SameField(d'[j], f) && FieldOk(d'[j]) && FieldOk(f) && f.rule.Repeated? && Packable(f.kind)
    requires |items| <= f.rule.arraySize && forall v :: v in items ==> Fits(f, v)
    requires m[j] == Many([])
    requires EncodeItems(f, items, 0).Some? && |EncodeItems(f, items, 0).value| < TWO_32
    ensures DecodeFields(d', Packed(f, EncodeItems(f, items, 0)).value + rest, m, seen)
         == DecodeFields(d', rest, m[j := Many(RestrictItems(d'[j], f, items))], seen + {j})
  {
    hide EncodeItems, Fits, DecodeFields, DecodePacked, Tag, Find, Stored, Varint, TakeString, FieldOk;
    var b := EncodeItems(f, items, 0).value;
    var slot := Many(items);
    assert items[..0] == [];
    PackedReturns(d'[j], f, items, 0, f.rule.arraySize);
    LengthReturns(b, rest);
    assert Packed(f, Some(b)).value == Tag(WT_STRING, f.tag) + WithLength(b);
    assert RestrictItems(d'[j], f, items) == items;
    TagBounds(d'[j]);
    TakesRecord(d', j, WT_STRING, WithLength(b), rest, m, seen, slot);
    NotInUnion(d', j, m);
    StoresOne(d', m, j, slot);
  }

  lemma {:induction false} TagBounds(f: Field)
    requires FieldOk(f)
    ensures 1 <= f.tag < 0x2000_0000
  {
  }

  /** A field left out because it is zero is zero when it comes back. */
  lemma {:induction false} ZeroReturns(f': Field, f: Field, v: Value)
    requires f'.kind == f.kind && f'.rule == f.rule == Optional(false) && f'.dataSize == f.dataSize && FieldOk(f') &&
      FieldOk(f)
    requires Fits(f, v) && IsZero(f, v)
    ensures RestrictSlot(f', f, One(v)) == DefaultSlot(f')
  {
    if f.kind.Text? {
      TextWhole(v.b);
    }
    assert v == Zero(f');
  }

  lemma {:induction false} KnownSlot(d': seq<Field>, j: nat, f: Field, slot: Slot, m: seq<Slot>, rest: Bytes,
        seen: set<nat>) returns (seen': set<nat>)
    requires |m| == |d'| && j < |d'| && Find(d', d'[j].tag) == Some(j)
    requires SameField(d'[j], f) && FieldOk(d'[j]) && FieldOk(f) && FitsSlot(f, slot) && m[j] == DefaultSlot(d'[j])
    requires slot != Choice(None) ==> forall k {:trigger SameUnion(d', j, k)} :: SameUnion(d', j, k) ==>
        m[k] == Choice(None)
    requires EncodeSlot(f, slot).Some? && |EncodeSlot(f, slot).value| < TWO_32
    ensures DecodeFields(d', EncodeSlot(f, slot).value + rest, m, seen)
         == DecodeFields(d', rest, m[j := RestrictSlot(d'[j], f, slot)], seen')
    ensures seen <= seen' && (f.rule.Required? ==> j in seen')
    decreases f, 2
  {
    hide EncodeValue, Fits, DecodeFields, Tag, Find, EncodeItems, EncodeTagged, Varint, RestrictValue, DefaultValue,
      IsZero, Packable, FieldOk;
    var f' := d'[j];
    assert [] + rest == rest && m[j := m[j]] == m;
    seen' := seen + {j};
    match slot
    case One(v) =>
      if f.rule == Optional(false) && IsZero(f, v) {
        ZeroReturns(f', f, v);
        seen' := seen;
      } else {
        KnownRecord(d', j, f, v, slot, m, rest, seen);
      }
    case Maybe(has, v) =>
      if has {
        KnownRecord(d', j, f, v, slot, m, rest, seen);
      } else {
        seen' := seen;
      }
    case Choice(c) =>
      if c.Some? {
        KnownRecord(d', j, f, c.value, slot, m, rest, seen);
      } else {
        seen' := seen;
      }
    case Many(items) =>
      if items == [] {
        assert RestrictItems(f', f, items) == [];
        seen' := seen;
      } else if Packable(f.kind) {
        KnownPacked(d', j, f, items, m, rest, seen);
      } else {
        assert RestrictItems(f', f, items)[..0] == [];
        seen' := KnownItems(d', j, f, items, 0, m, rest, seen);
      }
  }

  /** Whatever fits a descriptor is encoded, and decoding the bytes under any part of that
      descriptor uses them up and gives back exactly that part, with defaults for what was not there. */
  lemma {:induction false} RoundTrip(d': seq<Field>, d: seq<Field>, m: seq<Slot>)
    requires WellFormed(d') && WellFormed(d) && PartOf(d', d) && FitsMessage(d, m)
    ensures Encode(d, m).Some?
    ensures |Encode(d, m).value| < TWO_32 ==>
      Decode(d', Encode(d, m).value) == Some(Restrict(d', d, m)) && Unread(d', Encode(d, m).value, Defaults(d')) == []
  {
    hide EncodeFrom, DecodeMessage, Unread, WellFormed, PartOf, FitsMessage, Restrict;
    MessageEncodes(d, m, 0);
    if |Encode(d, m).value| < TWO_32 {
      MessageReturns(d', d, m);
    }
  }
}
