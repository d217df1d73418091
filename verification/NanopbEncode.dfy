/** Encoding messages: what the bytes are, and the streams that size and write them. */
module NanopbEncode {
  import opened ByteStrings
  import opened Reads
  import opened Coding
  import opened Nanopb

  /** Both, one after the other, if both are there. */
  function Then(a: Option<Bytes>, b: Option<Bytes>): Option<Bytes> {
    if a.Some? && b.Some? then Some(a.value + b.value) else None
  }

  function ZigZagged(v: int): nat {
    if v < 0 then TWO_64 - 1 - v % TWO_64 * 2 % TWO_64 else v * 2 % TWO_64
  }

  function Tag(wireType: nat, fieldNumber: nat): Bytes {
    Varint(fieldNumber * 8 + wireType)
  }

  function TagOf(f: Field): Bytes {
    Tag(WireType(f.kind), f.tag)
  }

  function WithLength(b: Bytes): Bytes {
    Varint(|b|) + b
  }

  /** A string ends at its first zero byte, if it has one. */
  function TextOf(b: Bytes): (r: Bytes)
    ensures |r| <= |b|
  {
    if b == [] || b[0] == 0 then [] else [b[0]] + TextOf(b[1..])
  }

  function Cut(b: Bytes, n: nat): Bytes {
    if |b| <= n then b else b[..n]
  }

  function EncodeValue(f: Field, v: Value): Option<Bytes>
    decreases f, 0
  {
    match v
    case Int(n) =>
      if f.kind.SignedVarint? then (if IntegerSize(f.dataSize) then Some(Varint(n % TWO_64)) else None)
      else if f.kind.UnsignedVarint? then (if IntegerSize(f.dataSize) && n >= 0 then Some(Varint(n)) else None)
      else if f.kind.ZigZag? then (if IntegerSize(f.dataSize) then Some(Varint(ZigZagged(n))) else None)
      else if f.kind.Fixed32? then Some(EncodeFixed32(n % TWO_32))
      else if f.kind.Fixed64? then Some(EncodeFixed64(n % TWO_64))
      else None
    case Blob(b) =>
      if f.kind.ByteArray? then (if |b| + SIZE_BYTES > f.dataSize then None else Some(WithLength(b)))
      else if f.kind.Text? then Some(WithLength(TextOf(Cut(b, f.dataSize))))
      else if f.kind.FixedBytes? then Some(WithLength(b))
      else None
    case Message(slots) =>
      if !f.kind.Submessage? then None
      else
        match EncodeFrom(f.sub, slots, 0)
        case None => None
        case Some(b) => Some(WithLength(b))
  }

  /** The items from the `i`th on, one after another without tags. */
  function EncodeItems(f: Field, items: seq<Value>, i: nat): Option<Bytes>
    requires i <= |items|
    decreases f, 1, |items| - i
  {
    if i == |items| then Some([]) else Then(EncodeValue(f, items[i]), EncodeItems(f, items, i + 1))
  }

  /** The items from the `i`th on, each with its tag. */
  function EncodeTagged(f: Field, items: seq<Value>, i: nat): Option<Bytes>
    requires i <= |items|
    decreases f, 1, |items| - i
  {
    if i == |items| then Some([])
    else Then(Then(Some(TagOf(f)), EncodeValue(f, items[i])), EncodeTagged(f, items, i + 1))
  }

  function EncodeArray(f: Field, items: seq<Value>, arraySize: nat): Option<Bytes>
    decreases f, 2
  {
    if items == [] then Some([])
    else if |items| > arraySize then None
    else if Packable(f.kind) then Packed(f, EncodeItems(f, items, 0))
    else EncodeTagged(f, items, 0)
  }

  /** The items of a packed array under one tag and length. */
  function Packed(f: Field, items: Option<Bytes>): Option<Bytes> {
    if items.None? then None else Some(Tag(WT_STRING, f.tag) + Varint(|items.value|) + items.value)
  }

  /** A field without a has-flag is left out if it is zero. */
  predicate IsZero(f: Field, v: Value) {
    match v
    case Int(n) => n == 0
    case Blob(b) => if f.kind.FixedBytes? then f.dataSize == 0 else if f.kind.Text? then TextOf(b) == [] else b == []
    case Message(_) => false
  }

  function EncodeSlot(f: Field, s: Slot): Option<Bytes>
    decreases f, 3
  {
    match f.rule
    case Required => if s.One? then Then(Some(TagOf(f)), EncodeValue(f, s.value)) else None
    case Optional(explicit) =>
      if explicit then
        if !s.Maybe? then None else if s.has then Then(Some(TagOf(f)), EncodeValue(f, s.value)) else Some([])
      else
        if !s.One? then None else if IsZero(f, s.value) then Some([]) else Then(Some(TagOf(f)), EncodeValue(f, s.value))
    case Repeated(n) => if s.Many? then EncodeArray(f, s.items, n) else None
    case OneOf(_) =>
      if !s.Choice? then None
      else if s.chosen.Some? then Then(Some(TagOf(f)), EncodeValue(f, s.chosen.value))
      else Some([])
  }

  /** The fields from the `i`th on, in descriptor order. */
  function EncodeFrom(d: seq<Field>, m: seq<Slot>, i: nat): Option<Bytes>
    requires i <= |d|
    decreases d, |d| - i
  {
    if |m| != |d| then None
    else if i == |d| then Some([])
    else Then(EncodeSlot(d[i], m[i]), EncodeFrom(d, m, i + 1))
  }

  function Encode(d: seq<Field>, m: seq<Slot>): Option<Bytes> {
    EncodeFrom(d, m, 0)
  }

  // ----- streams

  /** An output stream; one that does not write only counts. */
  class OStream {
    const writing: bool
    const maxSize: nat
    var bytesWritten: nat
    var out: Bytes

    constructor (writing: bool, maxSize: nat)
      ensures this.writing == writing && this.maxSize == maxSize && bytesWritten == 0 && out == []
    {
      this.writing, this.maxSize, bytesWritten, out := writing, maxSize, 0, [];
    }

    /** After `before` bytes and output `old`, these bytes were counted, and written if the
        stream writes; failure means that there are none to write, or no room for them. */
    ghost predicate Took(ok: bool, b: Option<Bytes>, before: nat, out0: Bytes)
      reads this
    {
      if b.Some? && (!writing || before + |b.value| <= maxSize)
      then ok && bytesWritten == before + |b.value| && out == if writing then out0 + b.value else out0
      else !ok
    }

    method Write(buf: Bytes) returns (ok: bool)
      modifies this
      ensures Took(ok, Some(buf), old(bytesWritten), old(out))
    {
      if writing {
        if bytesWritten + |buf| > maxSize {
          return false;
        }
        out := out + buf;
      }
      bytesWritten := bytesWritten + |buf|;
      ok := true;
    }

    /** Counting bytes without having them, on a stream that does not write. */
    method Count(size: nat, ghost b: Bytes) returns (ok: bool)
      requires !writing && size == |b|
      modifies this
      ensures Took(ok, Some(b), old(bytesWritten), old(out))
    {
      bytesWritten := bytesWritten + size;
      ok := true;
    }

    method EncodeVarint(value: nat) returns (ok: bool)
      modifies this
      ensures Took(ok, Some(Varint(value)), old(bytesWritten), old(out))
    {
      if value <= 0x7f {
        ok := Write([value as Byte]);
        return;
      }
      var buffer, v := [], value;
      ghost var last := value;
      while v != 0
        invariant v == 0 ==> buffer != [] && last < 128 && buffer[|buffer| - 1] as nat == last + 128
        invariant v == 0 ==> buffer[..|buffer| - 1] + [last as Byte] == Varint(value)
        invariant v != 0 ==> buffer + Varint(v) == Varint(value)
      {
        last := v;
        buffer := buffer + [(v % 128 + 128) as Byte];
        v := v / 128;
      }
      buffer := buffer[..|buffer| - 1] + [buffer[|buffer| - 1] - 128];
      ok := Write(buffer);
    }
  }

  /** Two parts in a row. */
  lemma {:induction false} TwoParts(s: OStream, a: Option<Bytes>, b: Option<Bytes>, ok: bool, n0: nat, out0: Bytes,
        n1: nat, out1: Bytes)
    requires a.Some? && (!s.writing || n0 + |a.value| <= s.maxSize)
    requires n1 == n0 + |a.value| && out1 == if s.writing then out0 + a.value else out0
    requires s.Took(ok, b, n1, out1)
    ensures s.Took(ok, Then(a, b), n0, out0)
  {
    if b.Some? {
      assert (out0 + a.value) + b.value == out0 + (a.value + b.value);
    }
  }

  // ----- the encoders

  method EncodeTag(s: OStream, wireType: nat, fieldNumber: nat) returns (ok: bool)
    modifies s
    ensures s.Took(ok, Some(Tag(wireType, fieldNumber)), old(s.bytesWritten), old(s.out))
  {
    ok := s.EncodeVarint(fieldNumber * 8 + wireType);
  }

  method EncodeString(s: OStream, b: Bytes) returns (ok: bool)
    modifies s
    ensures s.Took(ok, Some(WithLength(b)), old(s.bytesWritten), old(s.out))
  {
    hide Varint;
    ghost var n0, out0 := s.bytesWritten, s.out;
    ok := s.EncodeVarint(|b|);
    if !ok {
      return;
    }
    ghost var n1, out1 := s.bytesWritten, s.out;
    ok := s.Write(b);
    TwoParts(s, Some(Varint(|b|)), Some(b), ok, n0, out0, n1, out1);
  }

  method TextLength(b: Bytes, maxSize: nat) returns (size: nat)
    ensures size <= |b| && b[..size] == TextOf(Cut(b, maxSize))
  {
    size := 0;
    var t := Cut(b, maxSize);
    while size < maxSize && size < |b| && b[size] != 0
      invariant size <= |t| && TextOf(t) == t[..size] + TextOf(t[size..])
    {
      assert t[size..][1..] == t[size + 1..];
      assert t[..size] + ([t[size]] + TextOf(t[size + 1..])) == t[..size + 1] + TextOf(t[size + 1..]);
      size := size + 1;
    }
    assert b[..size] == t[..size] + [];
  }

  method EncodeScalar(s: OStream, f: Field, v: Value) returns (ok: bool)
    requires !v.Message?
    modifies s
    ensures s.Took(ok, EncodeValue(f, v), old(s.bytesWritten), old(s.out))
  {
    hide EncodeFixed32, EncodeFixed64, Varint, TextOf;
    match v
    case Int(n) =>
      if (f.kind.SignedVarint? || f.kind.UnsignedVarint? || f.kind.ZigZag?) && !IntegerSize(f.dataSize) {
        return false;
      }
      if f.kind.SignedVarint? {
        ok := s.EncodeVarint(n % TWO_64);
      } else if f.kind.UnsignedVarint? && n >= 0 {
        ok := s.EncodeVarint(n);
      } else if f.kind.ZigZag? {
        ok := s.EncodeVarint(ZigZagged(n));
      } else if f.kind.Fixed32? {
        ok := s.Write(EncodeFixed32(n % TWO_32));
      } else if f.kind.Fixed64? {
        ok := s.Write(EncodeFixed64(n % TWO_64));
      } else {
        ok := false;
      }
    case Blob(b) =>
      if f.kind.ByteArray? {
        if |b| + SIZE_BYTES > f.dataSize {
          return false;
        }
        ok := EncodeString(s, b);
      } else if f.kind.Text? {
        var size := TextLength(b, f.dataSize);
        ok := EncodeString(s, b[..size]);
      } else if f.kind.FixedBytes? {
        ok := EncodeString(s, b);
      } else {
        ok := false;
      }
  }

  method EncodeAny(s: OStream, f: Field, v: Value) returns (ok: bool)
    modifies s
    ensures s.Took(ok, EncodeValue(f, v), old(s.bytesWritten), old(s.out))
    decreases f, 0, 0
  {
    if v.Message? {
      if f.kind.Submessage? {
        ok := EncodeSubmessage(s, f.sub, v.slots, f);
      } else {
        ok := false;
      }
    } else {
      ok := EncodeScalar(s, f, v);
    }
  }

  /** The message is sized first, on a stream that does not write, then written on a stream
      with just that room. */
  method EncodeSubmessage(s: OStream, d: seq<Field>, m: seq<Slot>, ghost f: Field) returns (ok: bool)
    requires f.kind.Submessage? && f.sub == d
    modifies s
    ensures s.Took(ok, EncodeValue(f, Message(m)), old(s.bytesWritten), old(s.out))
    decreases d, |d| + 2
  {
    hide Varint;
    ghost var e := EncodeFrom(d, m, 0);
    ghost var n0, out0 := s.bytesWritten, s.out;
    var sizing := new OStream(false, 0);
    ok := EncodeMessage(sizing, d, m);
    if !ok {
      return;
    }
    var size := sizing.bytesWritten;
    ok := s.EncodeVarint(size);
    if !ok {
      return;
    }
    ghost var n1, out1 := s.bytesWritten, s.out;
    if !s.writing {
      ok := s.Count(size, e.value);
      TwoParts(s, Some(Varint(size)), e, ok, n0, out0, n1, out1);
      return;
    }
    if s.bytesWritten + size > s.maxSize {
      return false;
    }
    var substream := new OStream(true, size);
    ok := EncodeMessage(substream, d, m);
    s.bytesWritten := s.bytesWritten + substream.bytesWritten;
    s.out := s.out + substream.out;
    if substream.bytesWritten != size {
      // The submessage changed its size: only a callback could make it.
      assert false;
    }
    assert [] + e.value == e.value;
    TwoParts(s, Some(Varint(size)), e, ok, n0, out0, n1, out1);
  }

  lemma {:induction false} ThenGroups(a: Option<Bytes>, b: Option<Bytes>, c: Option<Bytes>)
    ensures Then(a, Then(b, c)) == Then(Then(a, b), c)
    ensures Then(Some([]), a) == a
    ensures a.Some? ==> Then(a, Some([])) == a
  {
    if a.Some? && b.Some? && c.Some? {
      assert a.value + (b.value + c.value) == (a.value + b.value) + c.value;
    }
    if a.Some? {
      assert [] + a.value == a.value && a.value + [] == a.value;
    }
  }

  /** The stream has taken `done`, the first part of what is to come to `whole`. */
  ghost predicate Underway(s: OStream, done: Bytes, whole: Option<Bytes>, rest: Option<Bytes>, n0: nat, out0: Bytes)
    reads s
  {
    && whole == Then(Some(done), rest)
    && s.bytesWritten == n0 + |done| && s.out == (if s.writing then out0 + done else out0)
    && (!s.writing || n0 + |done| <= s.maxSize)
  }

  lemma {:induction false} Underway0(s: OStream, whole: Option<Bytes>, n0: nat, out0: Bytes)
    requires s.bytesWritten == n0 && s.out == out0 && (!s.writing || n0 <= s.maxSize)
    ensures Underway(s, [], whole, whole, n0, out0)
  {
    ThenGroups(whole, None, None);
  }

  /** One more part taken, or not. */
  lemma {:induction false} PartTaken(s: OStream, done: Bytes, whole: Option<Bytes>, part: Option<Bytes>,
        rest: Option<Bytes>, ok: bool, n0: nat, out0: Bytes)
    requires whole == Then(Some(done), Then(part, rest)) && (!s.writing || n0 + |done| <= s.maxSize)
    requires s.Took(ok, part, n0 + |done|, if s.writing then out0 + done else out0)
    ensures ok ==> part.Some? && Underway(s, done + part.value, whole, rest, n0, out0)
    ensures !ok ==> s.Took(false, whole, n0, out0)
  {
    ThenGroups(Some(done), part, rest);
    if ok {
      assert (out0 + done) + part.value == out0 + (done + part.value);
    }
  }

  /** All parts taken. */
  lemma {:induction false} AllTaken(s: OStream, done: Bytes, whole: Option<Bytes>, n0: nat, out0: Bytes)
    requires Underway(s, done, whole, Some([]), n0, out0)
    ensures s.Took(true, whole, n0, out0)
  {
    ThenGroups(Some(done), None, None);
  }

  method EncodeMessage(s: OStream, d: seq<Field>, m: seq<Slot>) returns (ok: bool)
    requires !s.writing || s.bytesWritten <= s.maxSize
    modifies s
    ensures s.Took(ok, EncodeFrom(d, m, 0), old(s.bytesWritten), old(s.out))
    decreases d, |d| + 1
  {
    hide EncodeSlot, Then;
    if |m| != |d| {
      return false;
    }
    ghost var n0, out0, whole, done := s.bytesWritten, s.out, EncodeFrom(d, m, 0), [];
    Underway0(s, whole, n0, out0);
    for i := 0 to |d|
      invariant Underway(s, done, whole, EncodeFrom(d, m, i), n0, out0)
    {
      ok := EncodeBasicField(s, d[i], m[i]);
      PartTaken(s, done, whole, EncodeSlot(d[i], m[i]), EncodeFrom(d, m, i + 1), ok, n0, out0);
      if !ok {
        return;
      }
      done := done + EncodeSlot(d[i], m[i]).value;
    }
    AllTaken(s, done, whole, n0, out0);
    ok := true;
  }

  /** Tag and value. */
  method EncodeWithTag(s: OStream, f: Field, v: Value) returns (ok: bool)
    requires !s.writing || s.bytesWritten <= s.maxSize
    modifies s
    ensures s.Took(ok, Then(Some(TagOf(f)), EncodeValue(f, v)), old(s.bytesWritten), old(s.out))
    decreases f, 0, 1
  {
    hide Tag, EncodeValue;
    ghost var n0, out0 := s.bytesWritten, s.out;
    ok := EncodeTag(s, WireType(f.kind), f.tag);
    if !ok {
      return;
    }
    ghost var n1, out1 := s.bytesWritten, s.out;
    ok := EncodeAny(s, f, v);
    TwoParts(s, Some(TagOf(f)), EncodeValue(f, v), ok, n0, out0, n1, out1);
  }

  method EncodeBasicField(s: OStream, f: Field, slot: Slot) returns (ok: bool)
    requires !s.writing || s.bytesWritten <= s.maxSize
    modifies s
    ensures s.Took(ok, EncodeSlot(f, slot), old(s.bytesWritten), old(s.out))
    decreases f, 3
  {
    hide EncodeValue, EncodeArray, Then, IsZero;
    match f.rule
    case Required =>
      if !slot.One? {
        return false;
      }
      ok := EncodeWithTag(s, f, slot.value);
    case Optional(explicit) =>
      if (if explicit then !slot.Maybe? else !slot.One?) {
        return false;
      }
      var has := if explicit then slot.has else !IsZero(f, slot.value);
      if has {
        ok := EncodeWithTag(s, f, slot.value);
      } else {
        ok := Nothing(s);
      }
    case Repeated(arraySize) =>
      if !slot.Many? {
        return false;
      }
      ok := EncodeArrayField(s, f, slot.items, arraySize);
    case OneOf(_) =>
      if !slot.Choice? {
        return false;
      }
      if slot.chosen.Some? {
        ok := EncodeWithTag(s, f, slot.chosen.value);
      } else {
        ok := Nothing(s);
      }
  }

  method Nothing(s: OStream) returns (ok: bool)
    requires !s.writing || s.bytesWritten <= s.maxSize
    ensures s.Took(ok, Some([]), s.bytesWritten, s.out)
  {
    assert s.out + [] == s.out;
    ok := true;
  }

  method EncodeArrayField(s: OStream, f: Field, items: seq<Value>, arraySize: nat) returns (ok: bool)
    requires !s.writing || s.bytesWritten <= s.maxSize
    modifies s
    ensures s.Took(ok, EncodeArray(f, items, arraySize), old(s.bytesWritten), old(s.out))
    decreases f, 2
  {
    if items == [] {
      ok := Nothing(s);
    } else if |items| > arraySize {
      ok := false;
    } else if Packable(f.kind) {
      ok := EncodePacked(s, f, items);
    } else {
      ok := EncodeEach(s, f, items);
    }
  }

  method EncodeEach(s: OStream, f: Field, items: seq<Value>) returns (ok: bool)
    requires !s.writing || s.bytesWritten <= s.maxSize
    modifies s
    ensures s.Took(ok, EncodeTagged(f, items, 0), old(s.bytesWritten), old(s.out))
    decreases f, 1, 1
  {
    hide EncodeValue, Then, TagOf;
    ghost var n0, out0, whole, done := s.bytesWritten, s.out, EncodeTagged(f, items, 0), [];
    Underway0(s, whole, n0, out0);
    for i := 0 to |items|
      invariant Underway(s, done, whole, EncodeTagged(f, items, i), n0, out0)
    {
      ghost var part := Then(Some(TagOf(f)), EncodeValue(f, items[i]));
      ok := EncodeWithTag(s, f, items[i]);
      PartTaken(s, done, whole, part, EncodeTagged(f, items, i + 1), ok, n0, out0);
      if !ok {
        return;
      }
      done := done + part.value;
    }
    AllTaken(s, done, whole, n0, out0);
    ok := true;
  }

  /** The items one after another, on a stream that writes or one that sizes. */
  method EncodeAll(s: OStream, f: Field, items: seq<Value>) returns (ok: bool)
    requires !s.writing || s.bytesWritten <= s.maxSize
    modifies s
    ensures s.Took(ok, EncodeItems(f, items, 0), old(s.bytesWritten), old(s.out))
    decreases f, 1, 0
  {
    hide EncodeValue, Then;
    ghost var n0, out0, whole, done := s.bytesWritten, s.out, EncodeItems(f, items, 0), [];
    Underway0(s, whole, n0, out0);
    for i := 0 to |items|
      invariant Underway(s, done, whole, EncodeItems(f, items, i), n0, out0)
    {
      ok := EncodeAny(s, f, items[i]);
      PartTaken(s, done, whole, EncodeValue(f, items[i]), EncodeItems(f, items, i + 1), ok, n0, out0);
      if !ok {
        return;
      }
      done := done + EncodeValue(f, items[i]).value;
    }
    AllTaken(s, done, whole, n0, out0);
    ok := true;
  }

  /** All that an array of a packable kind can hold. */
  predicate AllInts(items: seq<Value>) {
    forall v :: v in items ==> v.Int?
  }

  /** Fixed-size items need no sizing pass. */
  lemma {:induction false} FixedItems(f: Field, items: seq<Value>, i: nat)
    requires i <= |items| && (f.kind.Fixed32? || f.kind.Fixed64?) && AllInts(items)
    ensures EncodeItems(f, items, i).Some?
    ensures |EncodeItems(f, items, i).value| == (if f.kind.Fixed32? then 4 else 8) * (|items| - i)
    decreases |items| - i
  {
    hide EncodeFixed32, EncodeFixed64;
    if i < |items| {
      assert items[i].Int?;
      FixedItems(f, items, i + 1);
    }
  }

  lemma {:induction false} OnlyInts(f: Field, items: seq<Value>, i: nat)
    requires i <= |items| && Packable(f.kind) && EncodeItems(f, items, i).Some?
    ensures forall k :: i <= k < |items| ==> items[k].Int?
    decreases |items| - i
  {
    hide EncodeFixed32, EncodeFixed64, Coding.Varint;
    if i < |items| {
      OnlyInts(f, items, i + 1);
    }
  }

  method EncodePacked(s: OStream, f: Field, items: seq<Value>) returns (ok: bool)
    requires Packable(f.kind) && (!s.writing || s.bytesWritten <= s.maxSize)
    modifies s
    ensures s.Took(ok, Packed(f, EncodeItems(f, items, 0)), old(s.bytesWritten), old(s.out))
    decreases f, 1, 1
  {
    hide Tag, Varint, EncodeItems, Packable;
    if !AllInts(items) {
      if EncodeItems(f, items, 0).Some? {
        OnlyInts(f, items, 0);
      }
      return false;
    }
    ghost var e := EncodeItems(f, items, 0);
    ghost var t := Some(Tag(WT_STRING, f.tag));
    ghost var n0, out0 := s.bytesWritten, s.out;
    ok := EncodeTag(s, WT_STRING, f.tag);
    if !ok {
      return;
    }
    var size;
    if f.kind.Fixed32? {
      size := 4 * |items|;
      FixedItems(f, items, 0);
    } else if f.kind.Fixed64? {
      size := 8 * |items|;
      FixedItems(f, items, 0);
    } else {
      var sizing := new OStream(false, 0);
      ok := EncodeAll(sizing, f, items);
      if !ok {
        return;
      }
      size := sizing.bytesWritten;
    }
    ghost var n1, out1 := s.bytesWritten, s.out;
    ok := s.EncodeVarint(size);
    if !ok {
      return;
    }
    ghost var n2, out2 := s.bytesWritten, s.out;
    if !s.writing {
      ok := s.Count(size, e.value);
    } else {
      ok := EncodeAll(s, f, items);
    }
    TwoParts(s, Some(Varint(size)), e, ok, n1, out1, n2, out2);
    TwoParts(s, t, Then(Some(Varint(size)), e), ok, n0, out0, n1, out1);
    ThenGroups(t, Some(Varint(size)), e);
  }

  /** The size a message will take, without writing it. */
  method GetEncodedSize(d: seq<Field>, m: seq<Slot>) returns (ok: bool, size: nat)
    ensures ok <==> Encode(d, m).Some?
    ensures ok ==> size == |Encode(d, m).value|
  {
    hide EncodeFrom;
    var s := new OStream(false, 0);
    ok := EncodeMessage(s, d, m);
    size := s.bytesWritten;
  }

  /** Writing a message into a buffer: the bytes, if there is room for them. */
  method EncodeToBuffer(d: seq<Field>, m: seq<Slot>, size: nat) returns (ok: bool, b: Bytes)
    ensures ok <==> Encode(d, m).Some? && |Encode(d, m).value| <= size
    ensures ok ==> b == Encode(d, m).value
  {
    hide EncodeFrom;
    var s := new OStream(true, size);
    ok := EncodeMessage(s, d, m);
    b := s.out;
    assert ok ==> [] + Encode(d, m).value == Encode(d, m).value;
  }
}
