/** Decoding messages: what bytes mean under a descriptor, and the stream that reads them. */
module NanopbDecode {
  import opened ByteStrings
  import opened Reads
  import opened Coding
  import opened Nanopb
  import opened NanopbRequired

  // ----- single values

  function Signed(u: nat, size: nat): int {
    if size == 1 then (if u % 0x100 < 0x80 then u % 0x100 else u % 0x100 - 0x100)
    else if size == 2 then (if u % 0x1_0000 < 0x8000 then u % 0x1_0000 else u % 0x1_0000 - 0x1_0000)
    else if size == 4 then (if u % TWO_32 < 0x8000_0000 then u % TWO_32 else u % TWO_32 - TWO_32)
    else if u % TWO_64 < 0x8000_0000_0000_0000 then u % TWO_64 else u % TWO_64 - TWO_64
  }

  /** A signed field: up to 32 bits the value is cut to 32 bits first, so that negative numbers
      encoded as 32-bit ones are read right. */
  function NarrowSigned(u: nat, size: nat): Option<int> {
    if !IntegerSize(size) then None
    else
      var v := Signed(u, if size == 8 then 8 else 4);
      if InSigned(v, size) then Some(v) else None
  }

  function NarrowUnsigned(u: nat, size: nat): Option<int> {
    if InUnsigned(u, size) then Some(u) else None
  }

  function NarrowZigZag(u: nat, size: nat): Option<int> {
    var v := if u % 2 == 1 then -(u / 2) - 1 else u / 2;
    if InSigned(v, size) then Some(v) else None
  }

  function Narrow(f: Field, u: nat): Option<int> {
    if f.kind.SignedVarint? then NarrowSigned(u, f.dataSize)
    else if f.kind.UnsignedVarint? then NarrowUnsigned(u, f.dataSize)
    else NarrowZigZag(u, f.dataSize)
  }

  function Take(input: Bytes, n: nat): (r: Option<Parsed<Bytes>>)
    ensures r.Some? ==> |r.value.rest| == |input| - n
  {
    if n <= |input| then Some(Parsed(input[..n], input[n..])) else None
  }

  /** A length and as many bytes. */
  function TakeString(input: Bytes): (r: Option<Parsed<Bytes>>)
    ensures r.Some? ==> |r.value.rest| < |input| && |r.value.value| < |input|
  {
    match GetVarint32(input)
    case None => None
    case Some(n) => Take(n.rest, n.value)
  }

  function AsInt(r: Option<Parsed<Bytes>>): Option<Parsed<Value>> {
    if r.None? then None else Some(Parsed(Int(FixedValue(r.value.value)), r.value.rest))
  }

  function AsBlob(r: Option<Parsed<Bytes>>): Option<Parsed<Value>> {
    if r.None? then None else Some(Parsed(Blob(r.value.value), r.value.rest))
  }

  /** One value of any kind but a submessage. */
  function DecodeScalar(f: Field, input: Bytes): (r: Option<Parsed<Value>>)
    ensures r.Some? ==> |r.value.rest| < |input|
  {
    match f.kind
    case Fixed32 => AsInt(Take(input, 4))
    case Fixed64 => AsInt(Take(input, 8))
    case ByteArray =>
      (match GetVarint32(input)
       case None => None
       case Some(n) => if n.value + SIZE_BYTES > f.dataSize then None else AsBlob(Take(n.rest, n.value)))
    case Text =>
      (match GetVarint32(input)
       case None => None
       case Some(n) => if n.value + 1 > f.dataSize then None else AsBlob(Take(n.rest, n.value)))
    case FixedBytes =>
      (match GetVarint32(input)
       case None => None
       case Some(n) =>
         if n.value == 0 then Some(Parsed(Blob(seq(f.dataSize, _ => 0)), n.rest))
         else if n.value != f.dataSize then None
         else AsBlob(Take(n.rest, n.value)))
    case Submessage => None
    case _ =>
      match GetVarint64(input)
      case None => None
      case Some(u) =>
        match Narrow(f, u.value)
        case None => None
        case Some(v) => Some(Parsed(Int(v), u.rest))
  }

  // ----- tags

  datatype TagRead = TagRead(wireType: nat, tag: nat, rest: Bytes) | EndOfMessage(rest: Bytes) | BadTag

  /** A tag cut short by the end of the input counts as the end, and so does a zero tag. */
  function ReadTag(input: Bytes): (r: TagRead)
    ensures r.TagRead? ==> |r.rest| < |input|
  {
    match GetVarint32(input)
    case None => if |input| <= 5 then EndOfMessage([]) else BadTag
    case Some(t) => if t.value == 0 then EndOfMessage(t.rest) else TagRead(t.value % 8, t.value / 8, t.rest)
  }

  function SkipVarint(input: Bytes): (r: Option<Bytes>)
    ensures r.Some? ==> |r.value| < |input|
  {
    if input == [] then None else if input[0] < 128 then Some(input[1..]) else SkipVarint(input[1..])
  }

  function RestOf(r: Option<Parsed<Bytes>>): Option<Bytes> {
    if r.None? then None else Some(r.value.rest)
  }

  /** Data of an unknown field is passed over by its wire type. */
  function SkipField(wireType: nat, input: Bytes): (r: Option<Bytes>)
    ensures r.Some? ==> |r.value| <= |input|
  {
    if wireType == WT_VARINT then SkipVarint(input)
    else if wireType == WT_64BIT then RestOf(Take(input, 8))
    else if wireType == WT_STRING then RestOf(TakeString(input))
    else if wireType == WT_32BIT then RestOf(Take(input, 4))
    else None
  }

  /** Position of the field with this tag. */
  function Find(d: seq<Field>, tag: nat): (r: Option<nat>)
    ensures r.Some? ==> r.value < |d| && d[r.value].tag == tag
    ensures r.None? ==> forall i :: 0 <= i < |d| ==> d[i].tag != tag
  {
    if d == [] then None
    else if d[0].tag == tag then Some(0)
    else
      match Find(d[1..], tag)
      case None => None
      case Some(i) => Some(i + 1)
  }

  // ----- fields and messages

  function DecodeValue(f: Field, current: Value, input: Bytes): (r: Option<Parsed<Value>>)
    ensures r.Some? ==> |r.value.rest| < |input|
    decreases |input|, 0
  {
    if !f.kind.Submessage? then DecodeScalar(f, input)
    else
      match TakeString(input)
      case None => None
      case Some(s) =>
        if !current.Message? then None
        else
          match DecodeMessage(f.sub, s.value, current.slots)
          case None => None
          case Some(m) => Some(Parsed(Message(m), s.rest))
  }

  /** Items of a packed array, behind those already there. */
  function DecodePacked(f: Field, items: seq<Value>, arraySize: nat, content: Bytes): Option<seq<Value>>
    decreases |content|
  {
    if content == [] then Some(items)
    else if |items| >= arraySize then None
    else
      match DecodeScalar(f, content)
      case None => None
      case Some(p) => DecodePacked(f, items + [p.value], arraySize, p.rest)
  }

  function DecodeSlot(f: Field, slot: Slot, wireType: nat, input: Bytes): (r: Option<Parsed<Slot>>)
    ensures r.Some? ==> |r.value.rest| < |input|
    decreases |input|, 1
  {
    match slot
    case One(current) =>
      (match DecodeValue(f, current, input)
       case None => None
       case Some(p) => Some(Parsed(One(p.value), p.rest)))
    case Maybe(_, current) =>
      (match DecodeValue(f, current, input)
       case None => None
       case Some(p) => Some(Parsed(Maybe(true, p.value), p.rest)))
    case Many(items) =>
      if !f.rule.Repeated? then None
      else if wireType == WT_STRING && Packable(f.kind) then
        match TakeString(input)
        case None => None
        case Some(s) =>
          match DecodePacked(f, items, f.rule.arraySize, s.value)
          case None => None
          case Some(more) => Some(Parsed(Many(more), s.rest))
      else if |items| >= f.rule.arraySize then None
      else
        (match DecodeValue(f, DefaultValue(f), input)
         case None => None
         case Some(p) => Some(Parsed(Many(items + [p.value]), p.rest)))
    case Choice(_) =>
      match DecodeValue(f, DefaultValue(f), input)
      case None => None
      case Some(p) => Some(Parsed(Choice(Some(p.value)), p.rest))
  }

  /** Selecting a member of a union deselects the others. */
  function Stored(d: seq<Field>, m: seq<Slot>, i: nat, slot: Slot): (r: seq<Slot>)
    requires i < |d| == |m|
    ensures |r| == |m|
  {
    seq(|m|, j requires 0 <= j < |m| =>
      if j == i then slot
      else if d[i].rule.OneOf? && d[j].rule == d[i].rule then Choice(None)
      else m[j])
  }

  /** Fields read until the input ends, which of them were seen, and what follows a zero tag. */
  datatype Progress = Progress(m: seq<Slot>, seen: set<nat>, unread: Bytes)

  function DecodeFields(d: seq<Field>, input: Bytes, m: seq<Slot>, seen: set<nat>): (r: Option<Progress>)
    requires |m| == |d|
    ensures r.Some? ==> |r.value.m| == |d|
    decreases |input|, 0
  {
    if input == [] then Some(Progress(m, seen, []))
    else
      match ReadTag(input)
      case BadTag => None
      case EndOfMessage(rest) => Some(Progress(m, seen, rest))
      case TagRead(wireType, tag, rest) =>
        match Find(d, tag)
        case None =>
          (match SkipField(wireType, rest)
           case None => None
           case Some(more) => DecodeFields(d, more, m, seen))
        case Some(i) =>
          match DecodeSlot(d[i], m[i], wireType, rest)
          case None => None
          case Some(p) => DecodeFields(d, p.rest, Stored(d, m, i, p.value), seen + {i})
  }

  /** Decoding on top of what the message holds; a required field must turn up. */
  function DecodeMessage(d: seq<Field>, input: Bytes, m: seq<Slot>): (r: Option<seq<Slot>>)
    ensures r.Some? ==> |r.value| == |d|
    decreases |input|, 1
  {
    if |m| != |d| then None
    else
      match DecodeFields(d, input, m, {})
      case None => None
      case Some(p) => if AllRequired(d, p.seen) then Some(p.m) else None
  }

  /** What decoding leaves of the input. */
  function Unread(d: seq<Field>, input: Bytes, m: seq<Slot>): Bytes {
    if |m| != |d| then input
    else
      match DecodeFields(d, input, m, {})
      case None => []
      case Some(p) => p.unread
  }

  function Decode(d: seq<Field>, input: Bytes): Option<seq<Slot>> {
    DecodeMessage(d, input, Defaults(d))
  }

  // ----- the stream

  lemma {:induction false} FromStart(input: Bytes, most: nat)
    ensures Accumulated(input, most, 1, 0) == ReadVarint(input, most)
  {
    hide Accumulated, ReadVarint;
    Accumulates(input, most, 1, 0);
  }

  lemma {:induction false} OneByteMore(input: Bytes, i: nat, most: nat, unit: nat, sum: nat)
    requires i <= most && i <= |input|
    ensures Accumulated(input[i..], most - i, unit, sum) ==
      if i == most || i == |input| then None
      else if input[i] < 128 then Some(Parsed(sum + Chunk(input[i], unit), input[i + 1..]))
      else Accumulated(input[i + 1..], most - (i + 1), 128 * unit, sum + Chunk(input[i], unit))
  {
    hide Chunk;
    assert i < |input| ==> input[i..][1..] == input[i + 1..];
  }

  /** An input stream over a buffer: where it stands, and how much it may still read. */
  class IStream {
    const data: Bytes
    var pos: nat
    var bytesLeft: nat

    ghost predicate Valid()
      reads this
    {
      pos + bytesLeft <= |data|
    }

    ghost function Input(): Bytes
      requires Valid()
      reads this
    {
      data[pos..pos + bytesLeft]
    }

    constructor (data: Bytes, pos: nat, bytesLeft: nat)
      requires pos + bytesLeft <= |data|
      ensures Valid() && this.data == data && this.pos == pos && this.bytesLeft == bytesLeft
    {
      this.data, this.pos, this.bytesLeft := data, pos, bytesLeft;
    }

    method ReadByte() returns (ok: bool, b: Byte)
      requires Valid()
      modifies this
      ensures Valid() && pos + bytesLeft == old(pos + bytesLeft)
      ensures ok <==> old(bytesLeft) > 0
      ensures ok ==> b == old(Input())[0] && Input() == old(Input())[1..]
      ensures !ok ==> bytesLeft == 0
    {
      if bytesLeft == 0 {
        return false, 0;
      }
      b := data[pos];
      pos, bytesLeft := pos + 1, bytesLeft - 1;
      ok := true;
    }

    method Read(count: nat) returns (ok: bool, buf: Bytes)
      requires Valid()
      modifies this
      ensures Valid() && pos + bytesLeft == old(pos + bytesLeft)
      ensures ok <==> Take(old(Input()), count).Some?
      ensures ok ==> Took(Take(old(Input()), count), buf)
    {
      if bytesLeft < count {
        return false, [];
      }
      buf := data[pos..pos + count];
      assert buf == Input()[..count];
      pos, bytesLeft := pos + count, bytesLeft - count;
      ok := true;
    }

    ghost predicate Took<T>(r: Option<Parsed<T>>, v: T)
      requires Valid()
      reads this
    {
      r.Some? && r.value.value == v && r.value.rest == Input()
    }

    /** Seven bits a byte, up to `most` bytes; bits beyond the width are lost. */
    method DecodeVarint(most: nat, width: nat) returns (ok: bool, value: nat)
      requires Valid() && width > 0
      modifies this
      ensures Valid() && pos + bytesLeft == old(pos + bytesLeft)
      ensures ok <==> ReadVarint(old(Input()), most).Some?
      ensures ok ==> Input() == ReadVarint(old(Input()), most).value.rest
      ensures ok ==> value == ReadVarint(old(Input()), most).value.value % width
      ensures !ok ==> (bytesLeft == 0 <==> |old(Input())| <= most)
    {
      hide ReadVarint, Chunk, Accumulated;
      ghost var input := Input();
      FromStart(input, most);
      var result: nat, unit: nat, i := 0, 1, 0;
      ghost var whole: nat := 0;
      while true
        invariant Valid() && pos + bytesLeft == old(pos + bytesLeft)
        invariant i <= most && i <= |input| && Input() == input[i..]
        invariant Accumulated(input, most, 1, 0) == Accumulated(input[i..], most - i, unit, whole)
        invariant result == whole % width
        decreases bytesLeft
      {
        OneByteMore(input, i, most, unit, whole);
        if i >= most {
          return false, 0;
        }
        var got, b := ReadByte();
        if !got {
          return false, 0;
        }
        var chunk := Chunk(b, unit);
        AddWrapped(whole, chunk, width);
        result := (result + chunk) % width;
        whole := whole + chunk;
        i := i + 1;
        if b < 128 {
          return true, result;
        }
        unit := 128 * unit;
      }
    }

    method DecodeVarint32() returns (ok: bool, value: nat)
      requires Valid()
      modifies this
      ensures Valid() && pos + bytesLeft == old(pos + bytesLeft)
      ensures ok <==> GetVarint32(old(Input())).Some?
      ensures ok ==> Took(GetVarint32(old(Input())), value)
      ensures !ok ==> (bytesLeft == 0 <==> |old(Input())| <= 5)
    {
      ok, value := DecodeVarint(5, TWO_32);
    }

    method SkipVarintField() returns (ok: bool)
      requires Valid()
      modifies this
      ensures Valid() && pos + bytesLeft == old(pos + bytesLeft)
      ensures ok <==> SkipVarint(old(Input())).Some?
      ensures ok ==> SkipVarint(old(Input())) == Some(Input())
    {
      while true
        invariant Valid() && pos + bytesLeft == old(pos + bytesLeft)
        invariant SkipVarint(Input()) == SkipVarint(old(Input()))
        decreases bytesLeft
      {
        var got, b := ReadByte();
        if !got {
          return false;
        }
        if b < 128 {
          return true;
        }
      }
    }

    method SkipFieldData(wireType: nat) returns (ok: bool)
      requires Valid()
      modifies this
      ensures Valid() && pos + bytesLeft == old(pos + bytesLeft)
      ensures ok <==> SkipField(wireType, old(Input())).Some?
      ensures ok ==> SkipField(wireType, old(Input())) == Some(Input())
    {
      hide GetVarint32, SkipVarint;
      var buf;
      if wireType == WT_VARINT {
        ok := SkipVarintField();
      } else if wireType == WT_64BIT {
        ok, buf := Read(8);
      } else if wireType == WT_STRING {
        var length;
        ok, length := DecodeVarint32();
        if ok {
          ok, buf := Read(length);
        }
      } else if wireType == WT_32BIT {
        ok, buf := Read(4);
      } else {
        ok := false;
      }
    }

    method DecodeTag() returns (ok: bool, wireType: nat, tag: nat, eof: bool)
      requires Valid()
      modifies this
      ensures Valid() && pos + bytesLeft == old(pos + bytesLeft)
      ensures match ReadTag(old(Input()))
        case TagRead(w, t, rest) => ok && wireType == w && tag == t && Input() == rest
        case EndOfMessage(rest) => !ok && eof && Input() == rest
        case BadTag => !ok && !eof
    {
      hide GetVarint32;
      var value;
      ok, value := DecodeVarint32();
      if !ok {
        return false, 0, 0, bytesLeft == 0;
      }
      if value == 0 {
        return false, 0, 0, true;
      }
      return true, value % 8, value / 8, false;
    }
  }

  // ----- the decoders

  method DecodeScalarField(s: IStream, f: Field) returns (ok: bool, v: Value)
    requires s.Valid() && !f.kind.Submessage?
    modifies s
    ensures s.Valid() && s.pos + s.bytesLeft == old(s.pos + s.bytesLeft)
    ensures ok <==> DecodeScalar(f, old(s.Input())).Some?
    ensures ok ==> s.Took(DecodeScalar(f, old(s.Input())), v)
  {
    hide ReadVarint, FixedValue, Narrow;
    v := Int(0);
    if f.kind.Fixed32? || f.kind.Fixed64? {
      var buf;
      ok, buf := s.Read(if f.kind.Fixed32? then 4 else 8);
      v := Int(FixedValue(buf));
    } else if f.kind.ByteArray? || f.kind.Text? {
      var size, buf;
      ok, size := s.DecodeVarint32();
      if !ok || size + (if f.kind.Text? then 1 else SIZE_BYTES) > f.dataSize {
        return false, v;
      }
      ok, buf := s.Read(size);
      v := Blob(buf);
    } else if f.kind.FixedBytes? {
      var size, buf;
      ok, size := s.DecodeVarint32();
      if !ok {
        return;
      }
      if size == 0 {
        return true, Blob(seq(f.dataSize, _ => 0));
      }
      if size != f.dataSize {
        return false, v;
      }
      ok, buf := s.Read(size);
      v := Blob(buf);
    } else {
      var u;
      ok, u := s.DecodeVarint(10, TWO_64);
      if !ok {
        return;
      }
      var n := Narrow(f, u);
      if n.None? {
        return false, v;
      }
      v := Int(n.value);
    }
  }

  /** A stream limited to the string that follows. */
  method MakeSubstream(s: IStream) returns (ok: bool, sub: IStream)
    requires s.Valid()
    modifies s
    ensures s.Valid() && fresh(sub) && sub.Valid()
    ensures !ok ==> s.pos + s.bytesLeft == old(s.pos + s.bytesLeft)
    ensures ok <==> TakeString(old(s.Input())).Some?
    ensures ok ==> sub.data == s.data && sub.Input() == TakeString(old(s.Input())).value.value
    ensures ok ==> sub.bytesLeft < old(s.bytesLeft) && sub.pos + sub.bytesLeft + s.bytesLeft == old(s.pos + s.bytesLeft)
    ensures ok ==> s.data[sub.pos + sub.bytesLeft..][..s.bytesLeft] == TakeString(old(s.Input())).value.rest
  {
    hide GetVarint32, TakeString;
    StringTaken(s.Input());
    var size;
    ok, size := s.DecodeVarint32();
    sub := new IStream(s.data, s.pos, 0);
    if !ok {
      return;
    }
    if s.bytesLeft < size {
      return false, sub;
    }
    Limited(s.data, s.pos, s.bytesLeft, size);
    sub.bytesLeft := size;
    s.bytesLeft := s.bytesLeft - size;
  }

  lemma {:induction false} StringTaken(input: Bytes)
    ensures var n, r := GetVarint32(input), TakeString(input);
      && (r.Some? <==> n.Some? && n.value.value <= |n.value.rest|)
      && (r.Some? ==> r.value == Parsed(n.value.rest[..n.value.value], n.value.rest[n.value.value..]))
  {
    hide GetVarint32;
  }

  /** A string at the front of a stretch of the data, and what is left of the stretch. */
  lemma {:induction false} Limited(data: Bytes, pos: nat, left: nat, size: nat)
    requires size <= left && pos + left <= |data|
    ensures data[pos..pos + left][..size] == data[pos..pos + size]
    ensures data[pos..pos + left][size..] == data[pos + size..][..left - size]
  {
  }

  /** Whatever the substream has left is skipped. */
  method CloseSubstream(s: IStream, sub: IStream)
    requires sub.Valid() && s != sub && s.data == sub.data && sub.pos + sub.bytesLeft + s.bytesLeft <= |s.data|
    modifies s, sub
    ensures s.Valid() && s.bytesLeft == old(s.bytesLeft) && s.pos == old(sub.pos + sub.bytesLeft)
    ensures s.Input() == s.data[old(sub.pos + sub.bytesLeft)..][..s.bytesLeft]
  {
    if sub.bytesLeft > 0 {
      var ok, buf := sub.Read(sub.bytesLeft);
    }
    s.pos := sub.pos;
  }

  method DecodeAny(s: IStream, f: Field, current: Value) returns (ok: bool, v: Value)
    requires s.Valid() && FieldOk(f)
    modifies s
    ensures s.Valid() && s.pos + s.bytesLeft == old(s.pos + s.bytesLeft)
    ensures ok <==> DecodeValue(f, current, old(s.Input())).Some?
    ensures ok ==> s.Took(DecodeValue(f, current, old(s.Input())), v)
    decreases s.bytesLeft, 0
  {
    if !f.kind.Submessage? {
      ok, v := DecodeScalarField(s, f);
      return;
    }
    v := current;
    hide TakeString, DecodeMessage;
    if !current.Message? {
      return false, v;
    }
    var sub, m;
    ok, sub := MakeSubstream(s);
    if !ok {
      return;
    }
    ok, m := DecodeNoInit(sub, f.sub, current.slots);
    v := Message(m);
    CloseSubstream(s, sub);
  }

  /** Where an array stands: its items so far, and how many it can hold. */
  method DecodePackedField(s: IStream, f: Field, items0: seq<Value>, arraySize: nat)
    returns (ok: bool, items: seq<Value>)
    requires s.Valid() && !f.kind.Submessage?
    modifies s
    ensures s.Valid() && s.pos + s.bytesLeft == old(s.pos + s.bytesLeft)
    ensures var t := TakeString(old(s.Input()));
      && (ok <==> t.Some? && DecodePacked(f, items0, arraySize, t.value.value).Some?)
      && (ok ==> DecodePacked(f, items0, arraySize, t.value.value) == Some(items) && s.Input() == t.value.rest)
  {
    hide TakeString, DecodeScalar;
    items := items0;
    var sub;
    ok, sub := MakeSubstream(s);
    if !ok {
      return;
    }
    ghost var content, end, left := sub.Input(), sub.pos + sub.bytesLeft, s.bytesLeft;
    while sub.bytesLeft > 0 && |items| < arraySize
      invariant sub.Valid() && sub.pos + sub.bytesLeft == end && s.bytesLeft == left && ok
      invariant DecodePacked(f, items, arraySize, sub.Input()) == DecodePacked(f, items0, arraySize, content)
      decreases sub.bytesLeft
    {
      var v;
      ok, v := DecodeScalarField(sub, f);
      if !ok {
        break;
      }
      items := items + [v];
    }
    if ok && sub.bytesLeft != 0 {
      // More items than the array holds.
      ok := false;
    }
    CloseSubstream(s, sub);
  }

  /** One field, into the slot that is there for it. */
  method DecodeField(s: IStream, wireType: nat, f: Field, slot: Slot) returns (ok: bool, r: Slot)
    requires s.Valid() && FieldOk(f)
    modifies s
    ensures s.Valid() && s.pos + s.bytesLeft == old(s.pos + s.bytesLeft)
    ensures ok <==> DecodeSlot(f, slot, wireType, old(s.Input())).Some?
    ensures ok ==> s.Took(DecodeSlot(f, slot, wireType, old(s.Input())), r)
    decreases s.bytesLeft, 1
  {
    hide DecodeValue, DecodePacked, DefaultValue, TakeString;
    var v;
    r := slot;
    match slot
    case One(current) =>
      ok, v := DecodeAny(s, f, current);
      r := One(v);
    case Maybe(_, current) =>
      ok, v := DecodeAny(s, f, current);
      r := Maybe(true, v);
    case Many(items) =>
      if !f.rule.Repeated? {
        return false, r;
      }
      if wireType == WT_STRING && Packable(f.kind) {
        var more;
        ok, more := DecodePackedField(s, f, items, f.rule.arraySize);
        r := Many(more);
      } else {
        if |items| >= f.rule.arraySize {
          return false, r;
        }
        ok, v := DecodeAny(s, f, DefaultValue(f));
        r := Many(items + [v]);
      }
    case Choice(_) =>
      ok, v := DecodeAny(s, f, DefaultValue(f));
      r := Choice(Some(v));
  }

  /** One step of the circular iterator, which counts the required fields it has passed. */
  method NextField(d: seq<Field>, pos: nat, index: nat) returns (next: nat, nextIndex: nat, more: bool)
    requires pos < |d| && index == RequiredBefore(d, pos)
    ensures more <==> pos + 1 < |d|
    ensures next == (if more then pos + 1 else 0) && nextIndex == RequiredBefore(d, next)
  {
    if pos + 1 == |d| {
      return 0, 0, false;
    }
    next, nextIndex, more := pos + 1, if d[pos].rule.Required? then index + 1 else index, true;
  }

  /** Looks for the field with this tag from where the iterator stands, once around. */
  method FindFrom(d: seq<Field>, start: nat, startIndex: nat, tag: nat) returns (found: bool, pos: nat, index: nat)
    requires start < |d| && WellFormed(d) && startIndex == RequiredBefore(d, start)
    ensures pos < |d| && (found <==> Find(d, tag).Some?) && (found ==> Find(d, tag) == Some(pos))
    ensures index == RequiredBefore(d, pos)
  {
    hide FieldOk, RequiredBefore;
    pos, index := start, startIndex;
    ghost var seen := 0;
    while true
      invariant pos < |d| && seen < |d| && index == RequiredBefore(d, pos)
      invariant pos == if start + seen < |d| then start + seen else start + seen - |d|
      invariant forall k :: 0 <= k < |d| && (start <= k < start + seen || k + |d| < start + seen) ==> d[k].tag != tag
      decreases |d| - seen
    {
      if d[pos].tag == tag {
        return true, pos, index;
      }
      var more;
      pos, index, more := NextField(d, pos, index);
      seen := seen + 1;
      if pos == start {
        return false, pos, index;
      }
    }
  }

  /** The number of required fields, found by running the iterator on to the end. */
  method CountRequired(d: seq<Field>, start: nat, startIndex: nat) returns (count: nat)
    requires (start < |d| || (d == [] && start == 0)) && startIndex == RequiredBefore(d, start)
    ensures count == RequiredCount(d)
  {
    if d == [] {
      return startIndex;
    }
    var pos, index := start, startIndex;
    while true
      invariant pos < |d| && index == RequiredBefore(d, pos)
      decreases |d| - pos
    {
      count := index;
      var lastRequired := d[pos].rule.Required?;
      var more;
      pos, index, more := NextField(d, pos, index);
      if !more {
        return if lastRequired then count + 1 else count;
      }
    }
  }

  method DecodeNoInit(s: IStream, d: seq<Field>, m0: seq<Slot>) returns (ok: bool, m: seq<Slot>)
    requires s.Valid() && WellFormed(d)
    modifies s
    ensures s.Valid() && s.pos + s.bytesLeft == old(s.pos + s.bytesLeft)
    ensures ok <==> DecodeMessage(d, old(s.Input()), m0).Some?
    ensures ok ==> DecodeMessage(d, old(s.Input()), m0) == Some(m) && s.Input() == Unread(d, old(s.Input()), m0)
    decreases s.bytesLeft, 2
  {
    hide ReadTag, Find, SkipField, DecodeSlot, Stored, WellFormed, Represents, RequiredBefore, AllRequired, Passes;
    m := m0;
    if |m| != |d| {
      return false, m;
    }
    var fieldsSeen, iter: nat, index: nat := [0, 0], 0, 0;
    ghost var seen: set<nat> := {};
    ghost var input := s.Input();
    NothingSeen(d);
    NoneBefore(d);
    while s.bytesLeft > 0
      invariant s.Valid() && s.pos + s.bytesLeft == old(s.pos + s.bytesLeft) && |m| == |d|
      invariant (iter < |d| || (d == [] && iter == 0)) && index == RequiredBefore(d, iter)
      invariant Represents(fieldsSeen, d, seen)
      invariant DecodeFields(d, s.Input(), m, seen) == DecodeFields(d, input, m0, {})
      decreases s.bytesLeft
    {
      ghost var before := s.Input();
      var got, wireType, tag, eof := s.DecodeTag();
      if !got {
        if eof {
          break;
        }
        return false, m;
      }
      var found := false;
      if d != [] {
        found, iter, index := FindFrom(d, iter, index, tag);
      } else {
        NotInEmpty(tag);
      }
      if !found {
        var skipped := s.SkipFieldData(wireType);
        if !skipped {
          return false, m;
        }
      } else {
        FieldIn(d, iter);
        TwoWords(fieldsSeen, d, seen);
        OneSeen(fieldsSeen, d, seen, iter);
        if d[iter].rule.Required? {
          fieldsSeen := Marked(fieldsSeen, index);
        }
        var read, slot := DecodeField(s, wireType, d[iter], m[iter]);
        if !read {
          return false, m;
        }
        m := Stored(d, m, iter, slot);
        seen := seen + {iter};
      }
    }
    var count := CountRequired(d, iter, index);
    CountIsOk(d);
    var machine: Machine := *;
    PassesIfSeen(fieldsSeen, d, seen, machine);
    ok := Check(fieldsSeen, count, machine);
  }

  lemma {:induction false} NoneBefore(d: seq<Field>)
    ensures RequiredBefore(d, 0) == 0
  {
  }

  lemma {:induction false} CountIsOk(d: seq<Field>)
    requires WellFormed(d)
    ensures CountOk(RequiredCount(d))
  {
  }

  lemma {:induction false} NotInEmpty(tag: nat)
    ensures Find([], tag).None?
  {
  }

  lemma {:induction false} FieldIn(d: seq<Field>, i: nat)
    requires WellFormed(d) && i < |d|
    ensures FieldOk(d[i])
  {
  }

  /** Decoding into a message set to its defaults first. */
  method DecodeBuffer(d: seq<Field>, data: Bytes) returns (ok: bool, m: seq<Slot>)
    requires WellFormed(d)
    ensures ok <==> Decode(d, data).Some?
    ensures ok ==> Decode(d, data) == Some(m)
  {
    hide DecodeMessage;
    var s := new IStream(data, 0, |data|);
    assert data[0..|data|] == data;
    ok, m := DecodeNoInit(s, d, Defaults(d));
  }
}
