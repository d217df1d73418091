/** What a run of records means to the decoder, in whatever order and layout a writer puts them. */
module NanopbWire {
  import opened ByteStrings
  import opened Reads
  import opened Coding
  import opened Nanopb
  import opened NanopbEncode
  import opened NanopbDecode
  import opened NanopbRequired
  import opened NanopbRoundTrip

  /** A value under the tag of field `j`, or items of array `j` packed under one tag and length. */
  datatype Record = Single(j: nat, v: Value) | Bunch(j: nat, items: seq<Value>) {
    function Values(): seq<Value> {
      if Single? then [v] else items
    }
  }

  function ValueBytes(f: Field, v: Value): Bytes {
    var e := EncodeValue(f, v);
    if e.Some? then e.value else []
  }

  function ItemBytes(f: Field, items: seq<Value>): Bytes {
    if items == [] then [] else ValueBytes(f, items[0]) + ItemBytes(f, items[1..])
  }

  function RecordBytes(d: seq<Field>, r: Record): Bytes
    requires r.j < |d|
  {
    match r
    case Single(j, v) => Tag(WireType(d[j].kind), d[j].tag) + ValueBytes(d[j], v)
    case Bunch(j, items) => Tag(WT_STRING, d[j].tag) + WithLength(ItemBytes(d[j], items))
  }

  /** A record of a field that is no submessage, with values that fit the field; only items of a
      repeated field of a packable kind come in bunches. */
  ghost predicate RecordOk(d: seq<Field>, r: Record) {
    && r.j < |d| && !d[r.j].kind.Submessage?
    && (forall v :: v in r.Values() ==> FitsScalar(d[r.j], v))
    && (r.Bunch? ==>
      d[r.j].rule.Repeated? && Packable(d[r.j].kind) && |ItemBytes(d[r.j], r.items)| < TWO_32)
  }

  ghost predicate RecordsOk(d: seq<Field>, rs: seq<Record>) {
    forall r :: r in rs ==> RecordOk(d, r)
  }

  ghost predicate Placed(d: seq<Field>, rs: seq<Record>) {
    forall r :: r in rs ==> r.j < |d|
  }

  ghost function Wire(d: seq<Field>, rs: seq<Record>): Bytes
    requires Placed(d, rs)
  {
    if rs == [] then [] else RecordBytes(d, rs[0]) + Wire(d, rs[1..])
  }

  // ----- what the records mean

  /** The items for a field, in the order of the records. */
  function ItemsFor(rs: seq<Record>, i: nat): seq<Value> {
    if rs == [] then [] else (if rs[0].j == i then rs[0].Values() else []) + ItemsFor(rs[1..], i)
  }

  /** No record is of one of the fields. */
  ghost predicate NoneOf(rs: seq<Record>, fields: set<nat>) {
    forall r :: r in rs ==> r.j !in fields
  }

  /** The last record that is of one of the fields. */
  ghost predicate LastOf(rs: seq<Record>, fields: set<nat>, k: nat) {
    k < |rs| && rs[k].j in fields && NoneOf(rs[k + 1..], fields)
  }

  /** The fields that a field is set or cleared with: the members of its union, or just itself. */
  function Together(d: seq<Field>, i: nat): set<nat>
    requires i < |d|
  {
    if d[i].rule.OneOf? then set j: nat | j < |d| && d[j].rule == d[i].rule else {i}
  }

  /** The slot of field `i` after a record of it or of another member of its union. */
  ghost predicate SetBy(f: Field, i: nat, r: Record, s: Slot) {
    r.Single? &&
    match f.rule
    case OneOf(_) => s == Choice(if r.j == i then Some(r.v) else None)
    case Optional(true) => s == Maybe(true, r.v)
    case _ => s == One(r.v)
  }

  /** What a field holds after the records: an array its items and then those of the records; a single
      field the value of its last record; a union the value of the last record of any of its members. */
  ghost predicate Means(d: seq<Field>, rs: seq<Record>, i: nat, before: Slot, after: Slot)
    requires i < |d|
  {
    if d[i].rule.Repeated? then before.Many? && after == Many(before.items + ItemsFor(rs, i))
    else
      && (NoneOf(rs, Together(d, i)) ==> after == before)
      && forall k: nat :: LastOf(rs, Together(d, i), k) ==> SetBy(d[i], i, rs[k], after)
  }

  ghost predicate AllMean(d: seq<Field>, rs: seq<Record>, m: seq<Slot>, m': seq<Slot>) {
    |m| == |m'| == |d| && forall i :: 0 <= i < |d| ==> Means(d, rs, i, m[i], m'[i])
  }

  /** The slot is of the form its field asks for. */
  predicate Shaped(f: Field, s: Slot) {
    match f.rule
    case Required => s.One?
    case Optional(explicit) => if explicit then s.Maybe? else s.One?
    case Repeated(n) => s.Many? && |s.items| <= n
    case OneOf(_) => s.Choice?
  }

  ghost predicate AllShaped(d: seq<Field>, m: seq<Slot>) {
    |m| == |d| && forall i :: 0 <= i < |d| ==> Shaped(d[i], m[i])
  }

  /** The array has room for the items of the records. */
  ghost predicate HasRoom(f: Field, s: Slot, more: seq<Value>) {
    f.rule.Repeated? && s.Many? ==> |s.items| + |more| <= f.rule.arraySize
  }

  ghost predicate AllHaveRoom(d: seq<Field>, rs: seq<Record>, m: seq<Slot>) {
    |m| == |d| && forall i :: 0 <= i < |d| ==> HasRoom(d[i], m[i], ItemsFor(rs, i))
  }

  // ----- one record after another

  lemma {:induction false} MeansNothing(d: seq<Field>, m: seq<Slot>)
    requires AllShaped(d, m)
    ensures AllMean(d, [], m, m)
  {
    forall i | 0 <= i < |d|
      ensures Means(d, [], i, m[i], m[i])
    {
      if m[i].Many? {
        assert m[i].items + [] == m[i].items;
      }
    }
  }

  lemma {:induction false} LastStays(r: Record, rs: seq<Record>, fields: set<nat>)
    ensures NoneOf([r] + rs, fields) <==> r.j !in fields && NoneOf(rs, fields)
    ensures forall k: nat :: LastOf([r] + rs, fields, k) <==>
        if k == 0 then r.j in fields && NoneOf(rs, fields) else LastOf(rs, fields, k - 1)
  {
    var all := [r] + rs;
    forall k: nat
      ensures LastOf(all, fields, k) <==>
        if k == 0 then r.j in fields && NoneOf(rs, fields) else LastOf(rs, fields, k - 1)
    {
      if 0 < k < |all| {
        assert all[k] == rs[k - 1] && all[k + 1..] == rs[k..];
      } else if k == 0 {
        assert all[1..] == rs;
      }
    }
    assert forall q :: q in all <==> q == r || q in rs;
  }

  lemma {:induction false} ItemsFollow(r: Record, rs: seq<Record>, i: nat)
    ensures ItemsFor([r] + rs, i) == ItemsFor([r], i) + ItemsFor(rs, i)
  {
    assert ([r] + rs)[1..] == rs && [r][1..] == [];
  }

  /** What a record means and what the others mean after it is what they mean together. */
  lemma {:induction false} MeansBoth(d: seq<Field>, r: Record, rs: seq<Record>, i: nat, a: Slot, b: Slot, c: Slot)
    requires i < |d| && Means(d, [r], i, a, b) && Means(d, rs, i, b, c)
    ensures Means(d, [r] + rs, i, a, c)
  {
    hide LastOf, NoneOf, Together, SetBy;
    if d[i].rule.Repeated? {
      ItemsFollow(r, rs, i);
      assert (a.items + ItemsFor([r], i)) + ItemsFor(rs, i) == a.items + (ItemsFor([r], i) + ItemsFor(rs, i));
    } else {
      var fields, none: seq<Record> := Together(d, i), [];
      LastStays(r, rs, fields);
      LastStays(r, none, fields);
      NoneOfNone(fields);
      assert [r] + none == [r];
    }
  }

  lemma {:induction false} NoneOfNone(fields: set<nat>)
    ensures NoneOf([], fields) && forall k: nat :: !LastOf([], fields, k)
  {
  }

  // ----- what the decoder does with a record

  lemma {:induction false} ValueDecodes(f: Field, v: Value, rest: Bytes)
    requires FieldOk(f) && FitsScalar(f, v)
    ensures DecodeScalar(f, ValueBytes(f, v) + rest) == Some(Parsed(v, rest)) && ValueBytes(f, v) != []
  {
    hide EncodeValue, DecodeScalar, FitsScalar;
    ScalarReturns(f, v, rest);
  }

  /** A bunch goes behind the items held, if there is room for all of it. */
  lemma {:induction false} BunchDecodes(f: Field, have: seq<Value>, items: seq<Value>, n: nat)
    requires FieldOk(f) && |have| <= n && forall v :: v in items ==> FitsScalar(f, v)
    ensures DecodePacked(f, have, n, ItemBytes(f, items)) ==
        if |have| + |items| <= n then Some(have + items) else None
    decreases |items|
  {
    hide FitsScalar, DecodeScalar, ValueBytes, FieldOk;
    if items == [] {
      assert have + items == have;
    } else {
      var v, rest := items[0], items[1..];
      assert v in items;
      ValueDecodes(f, v, ItemBytes(f, rest));
      if |have| < n {
        BunchDecodes(f, have + [v], rest, n);
        assert (have + [v]) + rest == have + items;
      }
    }
  }

  /** What the field holds after one value. */
  function WithValue(s: Slot, v: Value): Slot {
    match s
    case One(_) => One(v)
    case Maybe(_, _) => Maybe(true, v)
    case Many(items) => Many(items + [v])
    case Choice(_) => Choice(Some(v))
  }

  lemma {:induction false} SingleDecodes(f: Field, s: Slot, v: Value, rest: Bytes)
    requires FieldOk(f) && !f.kind.Submessage? && FitsScalar(f, v) && Shaped(f, s)
    ensures DecodeSlot(f, s, WireType(f.kind), ValueBytes(f, v) + rest) ==
        if HasRoom(f, s, [v]) then Some(Parsed(WithValue(s, v), rest)) else None
  {
    hide FitsScalar, DecodeScalar, ValueBytes, FieldOk, DecodePacked, TakeString;
    ValueDecodes(f, v, rest);
  }

  lemma {:induction false} BunchTaken(f: Field, s: Slot, items: seq<Value>, rest: Bytes)
    requires FieldOk(f) && f.rule.Repeated? && Packable(f.kind) && Shaped(f, s)
    requires |ItemBytes(f, items)| < TWO_32 && forall v :: v in items ==> FitsScalar(f, v)
    ensures DecodeSlot(f, s, WT_STRING, WithLength(ItemBytes(f, items)) + rest) ==
        if HasRoom(f, s, items) then Some(Parsed(Many(s.items + items), rest)) else None
  {
    hide FitsScalar, DecodeScalar, ItemBytes, FieldOk, DecodePacked, TakeString, WithLength;
    LengthReturns(ItemBytes(f, items), rest);
    BunchDecodes(f, s.items, items, f.rule.arraySize);
  }

  /** A record is read into the slot of its field, or fails as that does. */
  lemma {:induction false} RecordRead(d: seq<Field>, j: nat, wireType: nat, payload: Bytes, rest: Bytes, m: seq<Slot>,
        seen: set<nat>)
    requires |m| == |d| && j < |d| && Find(d, d[j].tag) == Some(j) && 1 <= d[j].tag < 0x2000_0000 && wireType < 8
    ensures DecodeFields(d, Tag(wireType, d[j].tag) + payload + rest, m, seen) ==
      match DecodeSlot(d[j], m[j], wireType, payload + rest)
      case None => None
      case Some(p) => DecodeFields(d, p.rest, Stored(d, m, j, p.value), seen + {j})
  {
    hide Tag, ReadTag, DecodeSlot, Find, Stored;
    assert Tag(wireType, d[j].tag) + payload + rest == Tag(wireType, d[j].tag) + (payload + rest);
    TagReturns(d[j], wireType, payload + rest);
  }

  lemma {:induction false} FoundThere(d: seq<Field>, j: nat)
    requires WellFormed(d) && j < |d|
    ensures FieldOk(d[j]) && Find(d, d[j].tag) == Some(j) && 1 <= d[j].tag < 0x2000_0000
  {
  }

  /** What the field of a record holds after it. */
  function WithRecord(s: Slot, r: Record): Slot {
    match r
    case Single(_, v) => WithValue(s, v)
    case Bunch(_, items) => if s.Many? then Many(s.items + items) else s
  }

  lemma {:induction false} RecordDecodes(d: seq<Field>, r: Record, rest: Bytes, m: seq<Slot>, seen: set<nat>)
    requires WellFormed(d) && AllShaped(d, m) && RecordOk(d, r)
    ensures DecodeFields(d, RecordBytes(d, r) + rest, m, seen) ==
      if HasRoom(d[r.j], m[r.j], r.Values())
      then DecodeFields(d, rest, Stored(d, m, r.j, WithRecord(m[r.j], r)), seen + {r.j})
      else None
  {
    FoundThere(d, r.j);
    hide WellFormed, FieldOk, Find, FitsScalar, Tag, DecodeFields, DecodeSlot, Stored, ItemBytes, ValueBytes,
      WithLength, WithValue;
    var f := d[r.j];
    match r
    case Single(j, v) =>
      assert v in r.Values();
      RecordRead(d, j, WireType(f.kind), ValueBytes(f, v), rest, m, seen);
      SingleDecodes(f, m[j], v, rest);
    case Bunch(j, items) =>
      RecordRead(d, j, WT_STRING, WithLength(ItemBytes(f, items)), rest, m, seen);
      BunchTaken(f, m[j], items, rest);
  }

  /** What a record stores is what it means. */
  lemma {:induction false} StoredMeans(d: seq<Field>, r: Record, m: seq<Slot>)
    requires AllShaped(d, m) && RecordOk(d, r) && HasRoom(d[r.j], m[r.j], r.Values())
    ensures var m' := Stored(d, m, r.j, WithRecord(m[r.j], r)); AllMean(d, [r], m, m') && AllShaped(d, m')
  {
    hide FitsScalar, ItemBytes, Packable;
    var m' := Stored(d, m, r.j, WithRecord(m[r.j], r));
    assert [r][1..] == [];
    forall i | 0 <= i < |d|
      ensures Means(d, [r], i, m[i], m'[i]) && Shaped(d[i], m'[i])
    {
      if d[i].rule.Repeated? {
        assert ItemsFor([r], i) == if r.j == i then r.Values() else [];
        assert m[i].items + [] == m[i].items;
      }
    }
  }

  /** There is room for a record and the ones after it if there is for it and then for them. */
  lemma {:induction false} RoomForBoth(d: seq<Field>, r: Record, rs: seq<Record>, m: seq<Slot>)
    requires AllShaped(d, m) && RecordOk(d, r)
    ensures !HasRoom(d[r.j], m[r.j], r.Values()) ==> !AllHaveRoom(d, [r] + rs, m)
    ensures forall m' :: AllMean(d, [r], m, m') ==> (AllHaveRoom(d, [r] + rs, m) <==>
        HasRoom(d[r.j], m[r.j], r.Values()) && AllHaveRoom(d, rs, m'))
  {
    hide FitsScalar, ItemBytes, Packable, SetBy, Together;
    forall i: nat
      ensures ItemsFor([r] + rs, i) == (if r.j == i then r.Values() else []) + ItemsFor(rs, i)
      ensures ItemsFor([r], i) == if r.j == i then r.Values() else []
    {
      ItemsFollow(r, rs, i);
      assert [r][1..] == [];
    }
    assert AllHaveRoom(d, [r] + rs, m) ==> HasRoom(d[r.j], m[r.j], ItemsFor([r] + rs, r.j));
    forall m' | AllMean(d, [r], m, m')
      ensures AllHaveRoom(d, [r] + rs, m) <==> HasRoom(d[r.j], m[r.j], r.Values()) && AllHaveRoom(d, rs, m')
    {
      forall i | 0 <= i < |d|
        ensures HasRoom(d[i], m[i], ItemsFor([r] + rs, i)) <==>
            (i == r.j ==> HasRoom(d[i], m[i], r.Values())) && HasRoom(d[i], m'[i], ItemsFor(rs, i))
      {
        assert Means(d, [r], i, m[i], m'[i]);
      }
    }
  }

  /** The fields that the records are of. */
  ghost function FieldsOf(rs: seq<Record>): set<nat> {
    set r | r in rs :: r.j
  }

  /** Decoding the records succeeds exactly if the arrays have room for their items, uses the input up,
      and leaves what the records mean. */
  lemma {:induction false} RecordsDecode(d: seq<Field>, rs: seq<Record>, m: seq<Slot>, seen: set<nat>)
    requires WellFormed(d) && AllShaped(d, m) && RecordsOk(d, rs)
    ensures var p := DecodeFields(d, Wire(d, rs), m, seen);
      && (p.Some? <==> AllHaveRoom(d, rs, m))
      && (p.Some? ==> AllMean(d, rs, m, p.value.m) && p.value.unread == [] && p.value.seen == seen + FieldsOf(rs))
    decreases |rs|
  {
    hide *;
    ShapedLength(d, m);
    if rs == [] {
      NothingMore(d, m, seen);
      MeansNothing(d, m);
      NoRecords(d, m);
    } else {
      var r, rest := rs[0], rs[1..];
      FirstRecord(d, rs);
      assert rs == [r] + rest;
      RoomForBoth(d, r, rest, m);
      RecordDecodes(d, r, Wire(d, rest), m, seen);
      if HasRoom(d[r.j], m[r.j], r.Values()) {
        var m' := Stored(d, m, r.j, WithRecord(m[r.j], r));
        StoredMeans(d, r, m);
        RecordsDecode(d, rest, m', seen + {r.j});
        var p := DecodeFields(d, Wire(d, rest), m', seen + {r.j});
        if p.Some? {
          AllMeanBoth(d, r, rest, m, m', p.value.m);
        }
      }
    }
  }

  lemma {:induction false} ShapedLength(d: seq<Field>, m: seq<Slot>)
    requires AllShaped(d, m)
    ensures |m| == |d|
  {
  }

  lemma {:induction false} NoRecords(d: seq<Field>, m: seq<Slot>)
    requires AllShaped(d, m)
    ensures RecordsOk(d, []) && Placed(d, []) && Wire(d, []) == [] && AllHaveRoom(d, [], m) && FieldsOf([]) == {}
  {
  }

  lemma {:induction false} FirstRecord(d: seq<Field>, rs: seq<Record>)
    requires RecordsOk(d, rs) && rs != []
    ensures RecordOk(d, rs[0]) && RecordsOk(d, rs[1..]) && Placed(d, rs) && Placed(d, rs[1..])
    ensures rs[0].j < |d| && Wire(d, rs) == RecordBytes(d, rs[0]) + Wire(d, rs[1..])
    ensures rs[0].j < |d| && FieldsOf(rs) == {rs[0].j} + FieldsOf(rs[1..])
  {
    hide RecordBytes;
    assert rs == [rs[0]] + rs[1..];
    assert forall r :: r in rs <==> r == rs[0] || r in rs[1..];
  }

  lemma {:induction false} AllMeanBoth(d: seq<Field>, r: Record, rs: seq<Record>, a: seq<Slot>, b: seq<Slot>, c: seq<Slot>)
    requires AllMean(d, [r], a, b) && AllMean(d, rs, b, c)
    ensures AllMean(d, [r] + rs, a, c)
  {
    hide Means;
    forall i | 0 <= i < |d|
      ensures Means(d, [r] + rs, i, a[i], c[i])
    {
      MeansBoth(d, r, rs, i, a[i], b[i], c[i]);
    }
  }

  /** A message of records is decoded exactly if the arrays have room and there is a record for every
      required field; the message then holds what the records mean on top of what it held. */
  lemma {:induction false} MessageMeans(d: seq<Field>, rs: seq<Record>, m: seq<Slot>)
    requires WellFormed(d) && AllShaped(d, m) && RecordsOk(d, rs)
    ensures var r := DecodeMessage(d, Wire(d, rs), m);
      && (r.Some? <==> AllHaveRoom(d, rs, m)
                       && forall i: nat :: i < |d| && d[i].rule.Required? ==> exists k :: 0 <= k < |rs| && rs[k].j == i)
      && (r.Some? ==> AllMean(d, rs, m, r.value) && Unread(d, Wire(d, rs), m) == [])
  {
    hide DecodeFields, Wire, WellFormed, AllMean, AllHaveRoom;
    RecordsDecode(d, rs, m, {});
    forall i: nat
      ensures i in FieldsOf(rs) <==> exists k :: 0 <= k < |rs| && rs[k].j == i
    {
    }
  }

  lemma {:induction false} DefaultsShaped(d: seq<Field>)
    ensures AllShaped(d, Defaults(d))
  {
  }

  /** ... and so on top of the defaults. */
  lemma {:induction false} BufferMeans(d: seq<Field>, rs: seq<Record>)
    requires WellFormed(d) && RecordsOk(d, rs)
    ensures var r := Decode(d, Wire(d, rs));
      && (r.Some? <==> AllHaveRoom(d, rs, Defaults(d))
                       && forall i: nat :: i < |d| && d[i].rule.Required? ==> exists k :: 0 <= k < |rs| && rs[k].j == i)
      && (r.Some? ==> AllMean(d, rs, Defaults(d), r.value))
  {
    hide DecodeMessage, Wire, WellFormed, AllMean, AllHaveRoom, AllShaped, RecordsOk;
    DefaultsShaped(d);
    MessageMeans(d, rs, Defaults(d));
  }

  /** A zero tag ends the message; what follows it is left unread. */
  lemma {:induction false} ZeroTagEnds(d: seq<Field>, rest: Bytes, m: seq<Slot>, seen: set<nat>)
    requires |m| == |d|
    ensures DecodeFields(d, [0] + rest, m, seen) == Some(Progress(m, seen, rest))
  {
    hide GetVarint32;
    assert Varint(0) == [0];
    Varint32RoundTrip(0, rest);
  }

  /** A negative number that was cut to 32 bits before it was written is read right by a signed field of at
      most 32 bits. */
  lemma {:induction false} ShortNegativesReturn(f: Field, v: int, rest: Bytes)
    requires f.kind.SignedVarint? && f.dataSize in {1, 2, 4} && v < 0 && InSigned(v, f.dataSize)
    ensures DecodeScalar(f, Varint(v + TWO_32) + rest) == Some(Parsed(Int(v), rest))
  {
    hide Varint, GetVarint64;
    Varint64RoundTrip(v + TWO_32, rest);
  }

  // ----- what the encoder writes

  /** The records for a field: none for a value that is not there or is zero without a has-flag, and one
      bunch for an array that can be packed. */
  function RecordsFor(f: Field, j: nat, s: Slot): seq<Record> {
    match s
    case One(v) => if f.rule == Optional(false) && (v == Int(0) || v == Blob([])) then [] else [Single(j, v)]
    case Maybe(has, v) => if has then [Single(j, v)] else []
    case Choice(c) => if c.Some? then [Single(j, c.value)] else []
    case Many(items) =>
      if items == [] then [] else if Packable(f.kind) then [Bunch(j, items)] else Singles(j, items)
  }

  function Singles(j: nat, items: seq<Value>): seq<Record> {
    if items == [] then [] else [Single(j, items[0])] + Singles(j, items[1..])
  }

  lemma {:induction false} OneOnWire(d: seq<Field>, r: Record)
    requires r.j < |d|
    ensures Placed(d, [r]) && Wire(d, [r]) == RecordBytes(d, r)
  {
    hide RecordBytes;
    assert [r][1..] == [] && RecordBytes(d, r) + [] == RecordBytes(d, r);
  }

  lemma {:induction false} SinglesOnWire(d: seq<Field>, j: nat, items: seq<Value>, i: nat)
    requires j < |d| && FieldOk(d[j]) && i <= |items| && forall v :: v in items ==> Fits(d[j], v)
    ensures Placed(d, Singles(j, items[i..])) && EncodeTagged(d[j], items, i) == Some(Wire(d, Singles(j, items[i..])))
    decreases |items| - i
  {
    hide EncodeValue, Fits, FieldOk, Tag;
    if i < |items| {
      var rest := Singles(j, items[i + 1..]);
      assert items[i] in items && items[i..][1..] == items[i + 1..];
      ValueEncodes(d[j], items[i]);
      SinglesOnWire(d, j, items, i + 1);
      assert ([Single(j, items[i])] + rest)[1..] == rest;
    }
  }

  lemma {:induction false} ItemsAre(f: Field, items: seq<Value>, i: nat)
    requires FieldOk(f) && i <= |items| && forall v :: v in items ==> Fits(f, v)
    ensures EncodeItems(f, items, i) == Some(ItemBytes(f, items[i..]))
    decreases |items| - i
  {
    hide EncodeValue, Fits, FieldOk;
    if i < |items| {
      assert items[i] in items && items[i..][1..] == items[i + 1..];
      ValueEncodes(f, items[i]);
      ItemsAre(f, items, i + 1);
    }
  }

  lemma {:induction false} ZeroIff(f: Field, v: Value)
    requires FieldOk(f) && f.rule == Optional(false) && Fits(f, v)
    ensures IsZero(f, v) <==> v == Int(0) || v == Blob([])
  {
    if f.kind.Text? {
      TextWhole(v.b);
    }
  }

  lemma {:induction false} SlotWrites(d: seq<Field>, j: nat, s: Slot)
    requires j < |d| && FieldOk(d[j]) && FitsSlot(d[j], s)
    ensures var rs := RecordsFor(d[j], j, s); Placed(d, rs) && EncodeSlot(d[j], s) == Some(Wire(d, rs))
  {
    hide EncodeValue, Fits, FieldOk, EncodeItems, EncodeTagged, Tag, IsZero, ItemBytes, Packable, Placed, Wire, Varint;
    var f, rs := d[j], RecordsFor(d[j], j, s);
    NothingOnWire(d);
    match s
    case One(v) =>
      ValueEncodes(f, v);
      if f.rule == Optional(false) {
        ZeroIff(f, v);
      }
      OneOnWire(d, Single(j, v));
    case Maybe(has, v) =>
      if has {
        ValueEncodes(f, v);
        OneOnWire(d, Single(j, v));
      }
    case Choice(c) =>
      if c.Some? {
        ValueEncodes(f, c.value);
        OneOnWire(d, Single(j, c.value));
      }
    case Many(items) =>
      if items != [] {
        assert items[0..] == items;
        if Packable(f.kind) {
          ItemsAre(f, items, 0);
          var b := ItemBytes(f, items);
          assert Tag(WT_STRING, f.tag) + WithLength(b) == Tag(WT_STRING, f.tag) + Varint(|b|) + b;
          OneOnWire(d, Bunch(j, items));
        } else {
          SinglesOnWire(d, j, items, 0);
        }
      }
  }

  lemma {:induction false} NothingOnWire(d: seq<Field>)
    ensures Placed(d, []) && Wire(d, []) == []
  {
  }

  lemma {:induction false} OnWire(d: seq<Field>, a: seq<Record>, b: seq<Record>)
    requires Placed(d, a) && Placed(d, b)
    ensures Placed(d, a + b) && Wire(d, a + b) == Wire(d, a) + Wire(d, b)
    decreases |a|
  {
    hide RecordBytes;
    if a == [] {
      assert a + b == b;
    } else {
      assert (a + b)[1..] == a[1..] + b && forall r :: r in a[1..] ==> r in a;
      OnWire(d, a[1..], b);
    }
  }

  /** The records of the fields from the `i`th on. */
  function RecordsFrom(d: seq<Field>, m: seq<Slot>, i: nat): seq<Record>
    requires i <= |d| == |m|
    decreases |d| - i
  {
    if i == |d| then [] else RecordsFor(d[i], i, m[i]) + RecordsFrom(d, m, i + 1)
  }

  /** A message is encoded as the records of its fields, field after field. */
  lemma {:induction false} MessageWrites(d: seq<Field>, m: seq<Slot>, i: nat)
    requires WellFormed(d) && FitsMessage(d, m) && i <= |d| == |m|
    ensures Placed(d, RecordsFrom(d, m, i)) && EncodeFrom(d, m, i) == Some(Wire(d, RecordsFrom(d, m, i)))
    decreases |d| - i
  {
    hide EncodeSlot, FitsSlot, Placed, Wire, RecordsFor, FieldOk;
    if i == |d| {
      NothingOnWire(d);
    } else {
      assert FieldOk(d[i]) && FitsSlot(d[i], m[i]);
      SlotWrites(d, i, m[i]);
      MessageWrites(d, m, i + 1);
      OnWire(d, RecordsFor(d[i], i, m[i]), RecordsFrom(d, m, i + 1));
    }
  }
}
