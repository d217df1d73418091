/** Whatever bytes come in, what the decoder stores stays within the memory of the message. */
module NanopbBounds {
  import opened ByteStrings
  import opened Reads
  import opened Coding
  import opened Nanopb
  import opened NanopbDecode

  /** The value is one that the memory of the field can hold: an integer of its width, bytes with their
      size in front, a string with its terminator. */
  ghost predicate ValueInside(f: Field, v: Value)
    decreases f, 0
  {
    match f.kind
    case SignedVarint => v.Int? && InSigned(v.v, f.dataSize)
    case ZigZag => v.Int? && InSigned(v.v, f.dataSize)
    case UnsignedVarint => v.Int? && InUnsigned(v.v, f.dataSize)
    case Fixed32 => v.Int? && 0 <= v.v < TWO_32
    case Fixed64 => v.Int? && 0 <= v.v < TWO_64
    case ByteArray => v.Blob? && |v.b| + SIZE_BYTES <= f.dataSize
    case Text => v.Blob? && |v.b| + 1 <= f.dataSize
    case FixedBytes => v.Blob? && |v.b| == f.dataSize
    case Submessage => v.Message? && MessageInside(f.sub, v.slots)
  }

  ghost predicate SlotInside(f: Field, s: Slot)
    decreases f, 1
  {
    match s
    case One(v) => ValueInside(f, v)
    case Maybe(_, v) => ValueInside(f, v)
    case Many(items) => f.rule.Repeated? && |items| <= f.rule.arraySize && forall v :: v in items ==> ValueInside(f, v)
    case Choice(c) => c.Some? ==> ValueInside(f, c.value)
  }

  ghost predicate MessageInside(d: seq<Field>, m: seq<Slot>)
    decreases d
  {
    |m| == |d| && forall i :: 0 <= i < |d| ==> SlotInside(d[i], m[i])
  }

  /** The defaults of all fields fit them. */
  ghost predicate PresetsInside(d: seq<Field>)
    decreases d
  {
    forall i :: 0 <= i < |d| ==> if d[i].kind.Submessage? then PresetsInside(d[i].sub) else ValueInside(d[i], d[i].preset)
  }

  ghost predicate PresetInside(f: Field) {
    if f.kind.Submessage? then PresetsInside(f.sub) else ValueInside(f, f.preset)
  }

  lemma {:induction false} DefaultInside(f: Field)
    requires PresetInside(f)
    ensures ValueInside(f, DefaultValue(f)) && SlotInside(f, DefaultSlot(f))
    decreases f, 0
  {
    if f.kind.Submessage? {
      DefaultsInside(f.sub);
    }
  }

  lemma {:induction false} DefaultsInside(d: seq<Field>)
    requires PresetsInside(d)
    ensures MessageInside(d, Defaults(d))
    decreases d
  {
    hide SlotInside, DefaultSlot;
    forall i | 0 <= i < |d|
      ensures SlotInside(d[i], Defaults(d)[i])
    {
      assert PresetInside(d[i]);
      DefaultInside(d[i]);
    }
  }

  lemma {:induction false} NarrowInside(f: Field, u: nat)
    requires (f.kind.SignedVarint? || f.kind.UnsignedVarint? || f.kind.ZigZag?) && Narrow(f, u).Some?
    ensures ValueInside(f, Int(Narrow(f, u).value))
  {
  }

  lemma {:induction false} ScalarInside(f: Field, input: Bytes)
    requires !f.kind.Submessage? && DecodeScalar(f, input).Some?
    ensures ValueInside(f, DecodeScalar(f, input).value.value)
  {
    hide GetVarint32, GetVarint64, FixedValue, Narrow, InSigned, InUnsigned;
    if f.kind.Fixed32? || f.kind.Fixed64? {
      FixedValueReturns(input[..if f.kind.Fixed32? then 4 else 8]);
      assert Power(256, 4) == TWO_32 && Power(256, 8) == TWO_64;
    } else if f.kind.SignedVarint? || f.kind.UnsignedVarint? || f.kind.ZigZag? {
      NarrowInside(f, GetVarint64(input).value.value);
    }
  }

  // ----- fields and messages

  lemma {:induction false} AnyInside(f: Field, current: Value, input: Bytes)
    requires PresetInside(f) && (f.kind.Submessage? ==> ValueInside(f, current)) && DecodeValue(f, current, input).Some?
    ensures ValueInside(f, DecodeValue(f, current, input).value.value)
    decreases |input|, 0
  {
    hide DecodeScalar, TakeString, DecodeMessage, MessageInside, PresetsInside;
    if f.kind.Submessage? {
      StaysInside(f.sub, TakeString(input).value.value, current.slots);
    } else {
      ScalarInside(f, input);
    }
  }

  lemma {:induction false} PackedInside(f: Field, items: seq<Value>, n: nat, content: Bytes)
    requires !f.kind.Submessage? && |items| <= n && (forall v :: v in items ==> ValueInside(f, v))
    requires DecodePacked(f, items, n, content).Some?
    ensures var r := DecodePacked(f, items, n, content).value;
      |r| <= n && forall v :: v in r ==> ValueInside(f, v)
    decreases |content|
  {
    hide DecodeScalar, ValueInside;
    if content != [] {
      ScalarInside(f, content);
      var p := DecodeScalar(f, content).value;
      PackedInside(f, items + [p.value], n, p.rest);
    }
  }

  lemma {:induction false} FieldInside(f: Field, s: Slot, wireType: nat, input: Bytes)
    requires PresetInside(f) && SlotInside(f, s) && DecodeSlot(f, s, wireType, input).Some?
    ensures SlotInside(f, DecodeSlot(f, s, wireType, input).value.value)
    decreases |input|, 1
  {
    hide DecodeValue, DecodePacked, TakeString, ValueInside, DefaultValue, PresetInside;
    DefaultInside(f);
    match s
    case One(current) => AnyInside(f, current, input);
    case Maybe(_, current) => AnyInside(f, current, input);
    case Choice(_) => AnyInside(f, DefaultValue(f), input);
    case Many(items) =>
      if wireType == WT_STRING && Packable(f.kind) {
        PackedInside(f, items, f.rule.arraySize, TakeString(input).value.value);
      } else {
        AnyInside(f, DefaultValue(f), input);
      }
  }

  lemma {:induction false} FieldsInside(d: seq<Field>, input: Bytes, m: seq<Slot>, seen: set<nat>)
    requires PresetsInside(d) && MessageInside(d, m) && DecodeFields(d, input, m, seen).Some?
    ensures MessageInside(d, DecodeFields(d, input, m, seen).value.m)
    decreases |input|, 0
  {
    hide ReadTag, Find, SkipField, DecodeSlot, SlotInside, PresetsInside;
    if input != [] && ReadTag(input).TagRead? {
      var t := ReadTag(input);
      match Find(d, t.tag)
      case None => FieldsInside(d, SkipField(t.wireType, t.rest).value, m, seen);
      case Some(i) =>
        PresetOf(d, i);
        FieldInside(d[i], m[i], t.wireType, t.rest);
        var p := DecodeSlot(d[i], m[i], t.wireType, t.rest).value;
        StoredInside(d, m, i, p.value);
        FieldsInside(d, p.rest, Stored(d, m, i, p.value), seen + {i});
    }
  }

  lemma {:induction false} PresetOf(d: seq<Field>, i: nat)
    requires PresetsInside(d) && i < |d|
    ensures PresetInside(d[i])
  {
  }

  lemma {:induction false} StoredInside(d: seq<Field>, m: seq<Slot>, i: nat, s: Slot)
    requires MessageInside(d, m) && i < |d| && SlotInside(d[i], s)
    ensures MessageInside(d, Stored(d, m, i, s))
  {
    hide ValueInside;
  }

  /** Decoding any bytes onto a message within its memory fails or leaves it within its memory. */
  lemma {:induction false} StaysInside(d: seq<Field>, input: Bytes, m: seq<Slot>)
    requires PresetsInside(d) && MessageInside(d, m) && DecodeMessage(d, input, m).Some?
    ensures MessageInside(d, DecodeMessage(d, input, m).value)
    decreases |input|, 1
  {
    hide DecodeFields;
    FieldsInside(d, input, m, {});
  }

  lemma {:induction false} DecodesInside(d: seq<Field>, data: Bytes)
    requires PresetsInside(d) && Decode(d, data).Some?
    ensures MessageInside(d, Decode(d, data).value)
  {
    hide *;
    DecodeIs(d, data);
    DefaultsInside(d);
    StaysInside(d, data, Defaults(d));
  }

  lemma {:induction false} DecodeIs(d: seq<Field>, data: Bytes)
    ensures Decode(d, data) == DecodeMessage(d, data, Defaults(d))
  {
  }
}
