/** Messages of the Protocol Buffers runtime: descriptors, what a message holds, defaults. */
module Nanopb {
  import opened ByteStrings
  import opened Reads
  import opened Coding

  /** How the bytes of one value are laid out. The first five kinds can be packed. */
  datatype Kind = SignedVarint | UnsignedVarint | ZigZag | Fixed32 | Fixed64 | ByteArray | Text | Submessage | FixedBytes

  /** `explicit` says whether an optional field has a has-flag of its own. */
  datatype Rule = Required | Optional(explicit: bool) | Repeated(arraySize: nat) | OneOf(group: nat)

  /** A field descriptor; `sub` describes a submessage, `preset` is the default value. */
  datatype Field = Field(tag: nat, kind: Kind, rule: Rule, dataSize: nat, sub: seq<Field>, preset: Value)

  datatype Value = Int(v: int) | Blob(b: Bytes) | Message(slots: seq<Slot>)

  /** What a message holds for a field: a value, with a flag if the field has one; the items
      of an array; the value of a union member, if it is the one selected. */
  datatype Slot =
    | One(value: Value)
    | Maybe(has: bool, value: Value)
    | Many(items: seq<Value>)
    | Choice(chosen: Option<Value>)

  const WT_VARINT: nat := 0
  const WT_64BIT: nat := 1
  const WT_STRING: nat := 2
  const WT_32BIT: nat := 5

  /** Bytes of `pb_size_t`, in front of the data of a bytes field. */
  const SIZE_BYTES: nat := 4

  predicate Packable(k: Kind) {
    k.SignedVarint? || k.UnsignedVarint? || k.ZigZag? || k.Fixed32? || k.Fixed64?
  }

  function WireType(k: Kind): (wt: nat)
    ensures wt < 8
  {
    if k.SignedVarint? || k.UnsignedVarint? || k.ZigZag? then WT_VARINT
    else if k.Fixed32? then WT_32BIT
    else if k.Fixed64? then WT_64BIT
    else WT_STRING
  }

  // ----- defaults

  /** The value a field starts from. */
  function DefaultValue(f: Field): Value
    decreases f, 0
  {
    if f.kind.Submessage? then Message(Defaults(f.sub)) else f.preset
  }

  function DefaultSlot(f: Field): Slot
    decreases f, 1
  {
    match f.rule
    case Required => One(DefaultValue(f))
    case Optional(explicit) => if explicit then Maybe(false, DefaultValue(f)) else One(DefaultValue(f))
    case Repeated(_) => Many([])
    case OneOf(_) => Choice(None)
  }

  /** A message with every field at its default, recursively. */
  function Defaults(d: seq<Field>): (m: seq<Slot>)
    ensures |m| == |d|
    ensures forall i :: 0 <= i < |d| ==> m[i] == DefaultSlot(d[i])
    decreases d
  {
    if d == [] then [] else Defaults(d[..|d| - 1]) + [DefaultSlot(d[|d| - 1])]
  }

  // ----- what the machine types allow

  /** The range of a signed integer of this many bytes. */
  predicate InSigned(v: int, size: nat) {
    if size == 1 then -0x80 <= v < 0x80
    else if size == 2 then -0x8000 <= v < 0x8000
    else if size == 4 then -0x8000_0000 <= v < 0x8000_0000
    else size == 8 && -0x8000_0000_0000_0000 <= v < 0x8000_0000_0000_0000
  }

  predicate InUnsigned(v: int, size: nat) {
    if size == 1 then 0 <= v < 0x100
    else if size == 2 then 0 <= v < 0x1_0000
    else if size == 4 then 0 <= v < TWO_32
    else size == 8 && 0 <= v < TWO_64
  }

  predicate IntegerSize(size: nat) {
    size == 1 || size == 2 || size == 4 || size == 8
  }

  // ----- required fields

  /** How many of the first `n` fields are required. */
  function RequiredBefore(d: seq<Field>, n: nat): nat
    requires n <= |d|
  {
    if n == 0 then 0 else RequiredBefore(d, n - 1) + if d[n - 1].rule.Required? then 1 else 0
  }

  function RequiredCount(d: seq<Field>): nat {
    RequiredBefore(d, |d|)
  }

  /** The counts of required fields for which the decoder's test for them is defined. */
  predicate CountOk(n: nat) {
    n == 0 || (n < 64 && n % 32 != 0)
  }

  /** A descriptor as the generator writes it: distinct tags, a number of required fields that
      the decoder can check, and a field without a has-flag is a scalar that starts at zero. */
  ghost predicate WellFormed(d: seq<Field>)
    decreases d
  {
    && (forall i, j :: 0 <= i < j < |d| ==> d[i].tag != d[j].tag)
    && CountOk(RequiredCount(d))
    && forall i :: 0 <= i < |d| ==> FieldOk(d[i])
  }

  ghost predicate FieldOk(f: Field)
    decreases f
  {
    && 1 <= f.tag < 0x2000_0000 && f.dataSize < TWO_32
    && (f.rule == Optional(false) ==> !f.kind.Submessage? && f.preset == Zero(f))
    && (f.kind.Submessage? ==> WellFormed(f.sub))
  }

  function Zero(f: Field): Value {
    if Packable(f.kind) then Int(0)
    else if f.kind.FixedBytes? then Blob(seq(f.dataSize, _ => 0))
    else Blob([])
  }
}
