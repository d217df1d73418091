/** Edits of a version: what changed from one version to the next, as a manifest record. */
module VersionEdit {
  import opened ByteStrings
  import opened InternalKeys
  import opened Reads
  import opened Coding

  /** A table file as the manifest knows it; the keys are encoded internal keys. */
  datatype Meta = Meta(number: nat, size: nat, smallest: Bytes, largest: Bytes)

  datatype Edit = Edit(
    comparator: Option<Bytes>,
    logNumber: Option<nat>,
    prevLogNumber: Option<nat>,
    nextFile: Option<nat>,
    lastSequence: Option<nat>,
    compactPointers: seq<(nat, Bytes)>,
    deleted: seq<(nat, nat)>,
    added: seq<(nat, Meta)>)

  const NO_EDIT := Edit(None, None, None, None, None, [], [], [])

  /** The record is a list of tagged fields. */
  datatype Field =
    | Comparator(name: Bytes)
    | LogNumber(number: nat)
    | PrevLogNumber(number: nat)
    | NextFile(number: nat)
    | LastSequence(number: nat)
    | CompactPointer(level: nat, key: Bytes)
    | DeletedFile(level: nat, number: nat)
    | NewFile(level: nat, file: Meta)

  ghost predicate StringFits(s: Bytes) {
    |s| < TWO_32
  }

  ghost predicate MetaFits(f: Meta) {
    f.number < TWO_64 && f.size < TWO_64 && StringFits(f.smallest) && StringFits(f.largest)
  }

  ghost predicate Fits(f: Field) {
    match f
    case Comparator(name) => StringFits(name)
    case LogNumber(n) => n < TWO_64
    case PrevLogNumber(n) => n < TWO_64
    case NextFile(n) => n < TWO_64
    case LastSequence(n) => n < TWO_64
    case CompactPointer(level, key) => level < NUM_LEVELS && StringFits(key)
    case DeletedFile(level, n) => level < NUM_LEVELS && n < TWO_64
    case NewFile(level, file) => level < NUM_LEVELS && MetaFits(file)
  }

  function Body(f: Field): Bytes {
    match f
    case Comparator(name) => LengthPrefixed(name)
    case LogNumber(n) => Varint(n)
    case PrevLogNumber(n) => Varint(n)
    case NextFile(n) => Varint(n)
    case LastSequence(n) => Varint(n)
    case CompactPointer(level, key) => Varint(level) + LengthPrefixed(key)
    case DeletedFile(level, n) => Varint(level) + Varint(n)
    case NewFile(level, g) => Varint(level) + (Varint(g.number) + (Varint(g.size) + (LengthPrefixed(g.smallest) + LengthPrefixed(g.largest))))
  }

  function TagOf(f: Field): (t: nat)
    ensures 1 <= t <= 9
  {
    match f
    case Comparator(_) => 1
    case LogNumber(_) => 2
    case PrevLogNumber(_) => 9
    case NextFile(_) => 3
    case LastSequence(_) => 4
    case CompactPointer(_, _) => 5
    case DeletedFile(_, _) => 6
    case NewFile(_, _) => 7
  }

  function EncodeField(f: Field): (b: Bytes)
    ensures b != []
  {
    Varint(TagOf(f)) + Body(f)
  }

  function EncodeFields(fs: seq<Field>): Bytes {
    if fs == [] then [] else EncodeField(fs[0]) + EncodeFields(fs[1..])
  }

  // ----- parsing

  function GetLevel(input: Bytes): (r: Option<Parsed<nat>>)
    ensures r.Some? ==> r.value.value < NUM_LEVELS && |r.value.rest| < |input|
  {
    match GetVarint32(input)
    case None => None
    case Some(p) => if p.value < NUM_LEVELS then Some(p) else None
  }

  function GetMeta(input: Bytes): (r: Option<Parsed<Meta>>)
    ensures r.Some? ==> |r.value.rest| < |input|
  {
    match GetVarint64(input)
    case None => None
    case Some(number) =>
      match GetVarint64(number.rest)
      case None => None
      case Some(size) =>
        match GetLengthPrefixedSlice(size.rest)
        case None => None
        case Some(smallest) =>
          match GetLengthPrefixedSlice(smallest.rest)
          case None => None
          case Some(largest) => Some(Parsed(Meta(number.value, size.value, smallest.value, largest.value),
              largest.rest))
  }

  /** What follows the tag; nothing for a tag that is not known, or for a body that is cut short or out of range. */
  function GetBody(tag: nat, input: Bytes): (r: Option<Parsed<Field>>)
    ensures r.Some? ==> |r.value.rest| < |input|
  {
    match tag
    case 1 => (match GetLengthPrefixedSlice(input) case None => None case Some(p) => Some(Parsed(Comparator(p.value),
        p.rest)))
    case 2 => (match GetVarint64(input) case None => None case Some(p) => Some(Parsed(LogNumber(p.value), p.rest)))
    case 9 => (match GetVarint64(input) case None => None case Some(p) => Some(Parsed(PrevLogNumber(p.value), p.rest)))
    case 3 => (match GetVarint64(input) case None => None case Some(p) => Some(Parsed(NextFile(p.value), p.rest)))
    case 4 => (match GetVarint64(input) case None => None case Some(p) => Some(Parsed(LastSequence(p.value), p.rest)))
    case 5 => GetPointer(input)
    case 6 => GetDeleted(input)
    case 7 => GetNew(input)
    case _ => None
  }

  function GetPointer(input: Bytes): (r: Option<Parsed<Field>>)
    ensures r.Some? ==> |r.value.rest| < |input|
  {
    match GetLevel(input)
    case None => None
    case Some(level) =>
      match GetLengthPrefixedSlice(level.rest)
      case None => None
      case Some(key) => Some(Parsed(CompactPointer(level.value, key.value), key.rest))
  }

  function GetDeleted(input: Bytes): (r: Option<Parsed<Field>>)
    ensures r.Some? ==> |r.value.rest| < |input|
  {
    match GetLevel(input)
    case None => None
    case Some(level) =>
      match GetVarint64(level.rest)
      case None => None
      case Some(number) => Some(Parsed(DeletedFile(level.value, number.value), number.rest))
  }

  function GetNew(input: Bytes): (r: Option<Parsed<Field>>)
    ensures r.Some? ==> |r.value.rest| < |input|
  {
    match GetLevel(input)
    case None => None
    case Some(level) =>
      match GetMeta(level.rest)
      case None => None
      case Some(file) => Some(Parsed(NewFile(level.value, file.value), file.rest))
  }

  function GetField(input: Bytes): (r: Option<Parsed<Field>>)
    ensures r.Some? ==> |r.value.rest| < |input|
  {
    match GetVarint32(input)
    case None => None
    case Some(tag) => GetBody(tag.value, tag.rest)
  }

  /** Deleted files are kept in order, without repetition. */
  predicate PairBefore(a: (nat, nat), b: (nat, nat)) {
    a.0 < b.0 || (a.0 == b.0 && a.1 < b.1)
  }

  function InsertPair(ps: seq<(nat, nat)>, p: (nat, nat)): seq<(nat, nat)> {
    if ps == [] then [p]
    else if PairBefore(ps[0], p) then [ps[0]] + InsertPair(ps[1..], p)
    else if ps[0] == p then ps
    else [p] + ps
  }

  /** The edit with one more field read. */
  function WithField(e: Edit, f: Field): Edit {
    match f
    case Comparator(name) => e.(comparator := Some(name))
    case LogNumber(n) => e.(logNumber := Some(n))
    case PrevLogNumber(n) => e.(prevLogNumber := Some(n))
    case NextFile(n) => e.(nextFile := Some(n))
    case LastSequence(n) => e.(lastSequence := Some(n))
    case CompactPointer(level, key) => e.(compactPointers := e.compactPointers + [(level, key)])
    case DeletedFile(level, n) => e.(deleted := InsertPair(e.deleted, (level, n)))
    case NewFile(level, file) => e.(added := e.added + [(level, file)])
  }

  function WithFields(e: Edit, fs: seq<Field>): Edit
    decreases |fs|
  {
    if fs == [] then e else WithFields(WithField(e, fs[0]), fs[1..])
  }

  /** The edit read so far, and whether all the input was well formed. */
  function Decode(input: Bytes, e: Edit): (r: (Edit, bool))
    decreases |input|
  {
    if input == [] then (e, true)
    else
      match GetField(input)
      case None => (e, false)
      case Some(p) => Decode(p.rest, WithField(e, p.value))
  }

  ghost predicate LevelsInRange(e: Edit) {
    && (forall p :: p in e.compactPointers ==> p.0 < NUM_LEVELS)
    && (forall p :: p in e.deleted ==> p.0 < NUM_LEVELS)
    && (forall p :: p in e.added ==> p.0 < NUM_LEVELS)
  }

  lemma {:induction false} DecodeInRange(input: Bytes, e: Edit)
    requires LevelsInRange(e)
    ensures LevelsInRange(Decode(input, e).0)
    decreases |input|
  {
    if input != [] && GetField(input).Some? {
      var p := GetField(input).value;
      FieldInRange(input);
      WithFieldInRange(e, p.value);
      hide GetField, WithField;
      DecodeInRange(p.rest, WithField(e, p.value));
    }
  }

  ghost predicate LevelInRange(f: Field) {
    match f
    case CompactPointer(level, _) => level < NUM_LEVELS
    case DeletedFile(level, _) => level < NUM_LEVELS
    case NewFile(level, _) => level < NUM_LEVELS
    case _ => true
  }

  lemma {:induction false} FieldInRange(input: Bytes)
    ensures var r := GetField(input); r.Some? ==> LevelInRange(r.value.value)
  {
  }

  lemma {:induction false} WithFieldInRange(e: Edit, f: Field)
    requires LevelsInRange(e) && LevelInRange(f)
    ensures LevelsInRange(WithField(e, f))
  {
    if f.DeletedFile? {
      InsertPairMember(e.deleted, (f.level, f.number));
    }
  }

  lemma {:induction false} InsertPairMember(ps: seq<(nat, nat)>, p: (nat, nat))
    ensures forall q :: q in InsertPair(ps, p) ==> q == p || q in ps
  {
    if ps != [] {
      assert ps == [ps[0]] + ps[1..];
      InsertPairMember(ps[1..], p);
    }
  }

  // ----- the fields of an edit, in the order they are written

  function NumberField(tag: nat, n: nat): Field {
    if tag == 2 then LogNumber(n) else if tag == 9 then PrevLogNumber(n) else if tag == 3
        then NextFile(n) else LastSequence(n)
  }

  function Numbered(tag: nat, o: Option<nat>): seq<Field> {
    match o
    case None => []
    case Some(n) => [NumberField(tag, n)]
  }

  function NameField(o: Option<Bytes>): seq<Field> {
    match o
    case None => []
    case Some(name) => [Comparator(name)]
  }

  function Pointers(ps: seq<(nat, Bytes)>): (fs: seq<Field>)
    ensures |fs| == |ps|
  {
    seq(|ps|, i requires 0 <= i < |ps| => CompactPointer(ps[i].0, ps[i].1))
  }

  function Deletions(ps: seq<(nat, nat)>): (fs: seq<Field>)
    ensures |fs| == |ps|
  {
    seq(|ps|, i requires 0 <= i < |ps| => DeletedFile(ps[i].0, ps[i].1))
  }

  function Additions(ps: seq<(nat, Meta)>): (fs: seq<Field>)
    ensures |fs| == |ps|
  {
    seq(|ps|, i requires 0 <= i < |ps| => NewFile(ps[i].0, ps[i].1))
  }

  function Header(e: Edit): seq<Field> {
    NameField(e.comparator) + Numbered(2, e.logNumber) + Numbered(9, e.prevLogNumber) + Numbered(3, e.nextFile) +
        Numbered(4, e.lastSequence)
  }

  function FieldsOf(e: Edit): seq<Field> {
    Header(e) + Pointers(e.compactPointers) + Deletions(e.deleted) + Additions(e.added)
  }

  ghost predicate EditFits(e: Edit) {
    && (forall f :: f in FieldsOf(e) ==> Fits(f))
    && (forall i, j :: 0 <= i < j < |e.deleted| ==> PairBefore(e.deleted[i], e.deleted[j]))
  }

  // ----- round trip

  lemma {:induction false} LevelRoundTrip(level: nat, rest: Bytes)
    requires level < NUM_LEVELS
    ensures GetLevel(Varint(level) + rest) == Some(Parsed(level, rest))
  {
    Varint32RoundTrip(level, rest);
  }

  lemma {:induction false} MetaRoundTrip(g: Meta, rest: Bytes)
    requires MetaFits(g)
    ensures GetMeta(Varint(g.number) + (Varint(g.size) +
        (LengthPrefixed(g.smallest) + (LengthPrefixed(g.largest) + rest)))) == Some(Parsed(g, rest))
  {
    hide LengthPrefixed, GetVarint64, GetLengthPrefixedSlice, Varint;
    Varint64RoundTrip(g.number, Varint(g.size) + (LengthPrefixed(g.smallest) + (LengthPrefixed(g.largest) + rest)));
    Varint64RoundTrip(g.size, LengthPrefixed(g.smallest) + (LengthPrefixed(g.largest) + rest));
    LengthPrefixedRoundTrip(g.smallest, LengthPrefixed(g.largest) + rest);
    LengthPrefixedRoundTrip(g.largest, rest);
  }

  lemma {:induction false} BodyRoundTrip(f: Field, rest: Bytes)
    requires Fits(f)
    ensures GetBody(TagOf(f), Body(f) + rest) == Some(Parsed(f, rest))
  {
    hide LengthPrefixed, GetVarint64, GetLevel, GetLengthPrefixedSlice, Varint, GetMeta;
    match f
    case Comparator(name) => LengthPrefixedRoundTrip(name, rest);
    case LogNumber(n) => Varint64RoundTrip(n, rest);
    case PrevLogNumber(n) => Varint64RoundTrip(n, rest);
    case NextFile(n) => Varint64RoundTrip(n, rest);
    case LastSequence(n) => Varint64RoundTrip(n, rest);
    case CompactPointer(level, key) =>
      assert Body(f) + rest == Varint(level) + (LengthPrefixed(key) + rest);
      LevelRoundTrip(level, LengthPrefixed(key) + rest);
      LengthPrefixedRoundTrip(key, rest);
    case DeletedFile(level, n) =>
      assert Body(f) + rest == Varint(level) + (Varint(n) + rest);
      LevelRoundTrip(level, Varint(n) + rest);
      Varint64RoundTrip(n, rest);
    case NewFile(level, g) =>
      var tail := Varint(g.number) +
          (Varint(g.size) + (LengthPrefixed(g.smallest) + (LengthPrefixed(g.largest) + rest)));
      assert Body(f) + rest == Varint(level) + tail;
      LevelRoundTrip(level, tail);
      MetaRoundTrip(g, rest);
  }

  lemma {:induction false} FieldRoundTrip(f: Field, rest: Bytes)
    requires Fits(f)
    ensures GetField(EncodeField(f) + rest) == Some(Parsed(f, rest))
  {
    hide Body, GetBody, GetVarint32, Varint;
    assert EncodeField(f) + rest == Varint(TagOf(f)) + (Body(f) + rest);
    Varint32RoundTrip(TagOf(f), Body(f) + rest);
    BodyRoundTrip(f, rest);
  }

  lemma {:induction false} FieldsRoundTrip(fs: seq<Field>, e: Edit)
    requires forall f :: f in fs ==> Fits(f)
    ensures Decode(EncodeFields(fs), e) == (WithFields(e, fs), true)
    decreases |fs|
  {
    hide GetField, EncodeField, Fits, WithField;
    if fs != [] {
      FieldRoundTrip(fs[0], EncodeFields(fs[1..]));
      FieldsRoundTrip(fs[1..], WithField(e, fs[0]));
    }
  }

  /** Fields in front of a tag that is none of theirs are read, and then decoding fails. */
  lemma {:induction false} DecodeStops(fs: seq<Field>, tag: nat, rest: Bytes, e: Edit)
    requires forall f :: f in fs ==> Fits(f)
    requires tag < TWO_32 && tag !in {1, 2, 3, 4, 5, 6, 7, 9}
    ensures Decode(EncodeFields(fs) + Varint(tag) + rest, e) == (WithFields(e, fs), false)
    decreases |fs|
  {
    hide EncodeField, GetField, WithField, Fits, Varint;
    if fs == [] {
      assert EncodeFields(fs) + Varint(tag) + rest == Varint(tag) + rest;
      UnknownTag(tag, rest);
    } else {
      var more := EncodeFields(fs[1..]) + Varint(tag) + rest;
      assert EncodeFields(fs) + Varint(tag) + rest == EncodeField(fs[0]) + more;
      assert fs[0] in fs;
      FieldRoundTrip(fs[0], more);
      DecodeStops(fs[1..], tag, rest, WithField(e, fs[0]));
    }
  }

  lemma {:induction false} UnknownTag(tag: nat, rest: Bytes)
    requires tag < TWO_32 && tag !in {1, 2, 3, 4, 5, 6, 7, 9}
    ensures GetField(Varint(tag) + rest).None? && Varint(tag) + rest != []
  {
    hide Varint, GetVarint32;
    Varint32RoundTrip(tag, rest);
  }

  lemma {:induction false} WithFieldsParts(e: Edit, a: seq<Field>, b: seq<Field>)
    ensures WithFields(e, a + b) == WithFields(WithFields(e, a), b)
    decreases |a|
  {
    hide WithField;
    if a == [] {
      assert a + b == b;
    } else {
      assert (a + b)[1..] == a[1..] + b;
      WithFieldsParts(WithField(e, a[0]), a[1..], b);
    }
  }

  lemma {:induction false} InsertLast(ps: seq<(nat, nat)>, p: (nat, nat))
    requires forall q :: q in ps ==> PairBefore(q, p)
    ensures InsertPair(ps, p) == ps + [p]
  {
    if ps != [] {
      InsertLast(ps[1..], p);
      assert ps == [ps[0]] + ps[1..];
    }
  }

  lemma {:induction false} WithPointers(e: Edit, ps: seq<(nat, Bytes)>)
    ensures WithFields(e, Pointers(ps)) == e.(compactPointers := e.compactPointers + ps)
    decreases |ps|
  {
    if ps != [] {
      assert Pointers(ps)[1..] == Pointers(ps[1..]);
      WithPointers(e.(compactPointers := e.compactPointers + [ps[0]]), ps[1..]);
      assert e.compactPointers + [ps[0]] + ps[1..] == e.compactPointers + ps;
    }
  }

  lemma {:induction false} WithAdditions(e: Edit, ps: seq<(nat, Meta)>)
    ensures WithFields(e, Additions(ps)) == e.(added := e.added + ps)
    decreases |ps|
  {
    if ps != [] {
      assert Additions(ps)[1..] == Additions(ps[1..]);
      WithAdditions(e.(added := e.added + [ps[0]]), ps[1..]);
      assert e.added + [ps[0]] + ps[1..] == e.added + ps;
    }
  }

  lemma {:induction false} WithDeletions(e: Edit, ps: seq<(nat, nat)>)
    requires var all := e.deleted + ps; forall i, j :: 0 <= i < j < |all| ==> PairBefore(all[i], all[j])
    ensures WithFields(e, Deletions(ps)) == e.(deleted := e.deleted + ps)
    decreases |ps|
  {
    if ps != [] {
      assert Deletions(ps)[1..] == Deletions(ps[1..]);
      var all := e.deleted + ps;
      assert all[|e.deleted|] == ps[0];
      forall q | q in e.deleted
        ensures PairBefore(q, ps[0])
      {
        var k :| 0 <= k < |e.deleted| && e.deleted[k] == q;
        assert all[k] == q;
      }
      InsertLast(e.deleted, ps[0]);
      assert e.deleted + [ps[0]] + ps[1..] == all;
      WithDeletions(e.(deleted := e.deleted + [ps[0]]), ps[1..]);
    }
  }

  /** Decoding into an edit that was used before: its compaction pointers stay in front. */
  lemma {:induction false} UsedRoundTrip(e: Edit, held: seq<(nat, Bytes)>)
    requires EditFits(e)
    ensures Decode(EncodeFields(FieldsOf(e)), NO_EDIT.(compactPointers := held)) ==
        (e.(compactPointers := held + e.compactPointers), true)
  {
    hide Fits, PairBefore, Decode, EncodeFields, WithFields, Header, Pointers, Deletions, Additions;
    var used := NO_EDIT.(compactPointers := held);
    var h, ps, ds, ns := Header(e), Pointers(e.compactPointers), Deletions(e.deleted), Additions(e.added);
    FieldsRoundTrip(FieldsOf(e), used);
    WithFieldsParts(used, h + ps + ds, ns);
    WithFieldsParts(used, h + ps, ds);
    WithFieldsParts(used, h, ps);
    WithHeader(e, held);
    var e1 := e.(compactPointers := held, deleted := [], added := []);
    WithPointers(e1, e.compactPointers);
    var e2 := e1.(compactPointers := held + e.compactPointers);
    assert [] + e.deleted == e.deleted;
    WithDeletions(e2, e.deleted);
    WithAdditions(e2.(deleted := e.deleted), e.added);
    assert [] + e.added == e.added;
  }

  /** `Clear` leaves compaction pointers in place, so an edit comes back as it was written exactly
      when there were none. */
  lemma {:induction false} UsedRoundTripIff(e: Edit, held: seq<(nat, Bytes)>)
    requires EditFits(e)
    ensures Decode(EncodeFields(FieldsOf(e)), NO_EDIT.(compactPointers := held)) == (e, true) <==> held == []
  {
    hide EditFits, FieldsOf, EncodeFields, Decode;
    UsedRoundTrip(e, held);
    var pointers := held + e.compactPointers;
    assert |pointers| == |held| + |e.compactPointers|;
    assert held == [] ==> pointers == e.compactPointers;
  }

  /** Decoding an encoded edit into a fresh one gives back the edit. */
  lemma {:induction false} RoundTrip(e: Edit)
    requires EditFits(e)
    ensures Decode(EncodeFields(FieldsOf(e)), NO_EDIT) == (e, true)
  {
    hide EditFits, FieldsOf, EncodeFields, Decode;
    UsedRoundTripIff(e, []);
  }

  lemma {:induction false} WithHeader(e: Edit, held: seq<(nat, Bytes)>)
    ensures WithFields(NO_EDIT.(compactPointers := held), Header(e)) ==
        e.(compactPointers := held, deleted := [], added := [])
  {
    var used := NO_EDIT.(compactPointers := held);
    var a, b, c, d := NameField(e.comparator), Numbered(2, e.logNumber), Numbered(9, e.prevLogNumber),
        Numbered(3, e.nextFile);
    var f := Numbered(4, e.lastSequence);
    WithFieldsParts(used, a + b + c + d, f);
    WithFieldsParts(used, a + b + c, d);
    WithFieldsParts(used, a + b, c);
    WithFieldsParts(used, a, b);
    var e1 := used.(comparator := e.comparator);
    assert WithFields(used, a) == e1;
    WithNumbered(e1, 2, e.logNumber);
    var e2 := e1.(logNumber := e.logNumber);
    WithNumbered(e2, 9, e.prevLogNumber);
    var e3 := e2.(prevLogNumber := e.prevLogNumber);
    WithNumbered(e3, 3, e.nextFile);
    WithNumbered(e3.(nextFile := e.nextFile), 4, e.lastSequence);
  }

  lemma {:induction false} WithNumbered(e: Edit, tag: nat, o: Option<nat>)
    requires tag == 2 ==> e.logNumber == None
    requires tag == 9 ==> e.prevLogNumber == None
    requires tag == 3 ==> e.nextFile == None
    requires tag == 4 ==> e.lastSequence == None
    requires tag in [2, 3, 4, 9]
    ensures WithFields(e, Numbered(tag, o)) ==
      if tag == 2 then e.(logNumber := o) else if tag == 9 then e.(prevLogNumber := o)
      else if tag == 3 then e.(nextFile := o) else e.(lastSequence := o)
  {
  }

  // ----- the edit as the program holds it

  class VersionEdit {
    var edit: Edit

    constructor ()
      ensures edit == NO_EDIT
    {
      edit := NO_EDIT;
    }

    /** The compaction pointers survive. */
    method Clear()
      modifies this
      ensures edit == NO_EDIT.(compactPointers := old(edit).compactPointers)
    {
      edit := NO_EDIT.(compactPointers := edit.compactPointers);
    }

    method EncodeTo(dst: Bytes) returns (r: Bytes)
      ensures r == dst + EncodeFields(FieldsOf(edit))
    {
      hide EncodeField, EncodeFields, Header;
      r := EncodeHeader(dst);
      var done, ps := Header(edit), Pointers(edit.compactPointers);
      assert done + ps[..0] == done;
      for i := 0 to |edit.compactPointers|
        invariant r == dst + EncodeFields(done + ps[..i])
      {
        EncodeMore(done, ps, i, dst);
        r := r + EncodeField(CompactPointer(edit.compactPointers[i].0, edit.compactPointers[i].1));
      }
      assert ps[..|ps|] == ps;
      done := done + ps;
      var ds := Deletions(edit.deleted);
      assert done + ds[..0] == done;
      for i := 0 to |edit.deleted|
        invariant r == dst + EncodeFields(done + ds[..i])
      {
        EncodeMore(done, ds, i, dst);
        r := r + EncodeField(DeletedFile(edit.deleted[i].0, edit.deleted[i].1));
      }
      assert ds[..|ds|] == ds;
      done := done + ds;
      var ns := Additions(edit.added);
      assert done + ns[..0] == done;
      for i := 0 to |edit.added|
        invariant r == dst + EncodeFields(done + ns[..i])
      {
        EncodeMore(done, ns, i, dst);
        r := r + EncodeField(NewFile(edit.added[i].0, edit.added[i].1));
      }
      assert ns[..|ns|] == ns;
    }

    method EncodeHeader(dst: Bytes) returns (r: Bytes)
      ensures r == dst + EncodeFields(Header(edit))
    {
      hide EncodeField, EncodeFields, Numbered, NameField;
      var a, b, c, d := NameField(edit.comparator), Numbered(2, edit.logNumber), Numbered(9, edit.prevLogNumber),
          Numbered(3, edit.nextFile);
      r := dst + NameBytes(edit.comparator);
      OneName(edit.comparator);
      r := PutNumber(r, 2, edit.logNumber);
      EncodeParts(a, b);
      r := PutNumber(r, 9, edit.prevLogNumber);
      EncodeParts(a + b, c);
      r := PutNumber(r, 3, edit.nextFile);
      EncodeParts(a + b + c, d);
      r := PutNumber(r, 4, edit.lastSequence);
      EncodeParts(a + b + c + d, Numbered(4, edit.lastSequence));
    }

    method DecodeFrom(src: Bytes) returns (ok: bool)
      modifies this
      ensures (edit, ok) == Decode(src, NO_EDIT.(compactPointers := old(edit).compactPointers))
    {
      hide GetBody, WithField, GetVarint32;
      Clear();
      var input := src;
      ghost var start := edit;
      while true
        invariant Decode(input, edit) == Decode(src, start)
        decreases |input|
      {
        var tag := GetVarint32(input);
        if tag.None? {
          break;
        }
        var field := GetBody(tag.value.value, tag.value.rest);
        if field.None? {
          return false;
        }
        edit := WithField(edit, field.value.value);
        input := field.value.rest;
      }
      ok := input == [];
    }
  }

  lemma {:induction false} EncodeMore(done: seq<Field>, fs: seq<Field>, i: nat, dst: Bytes)
    requires i < |fs|
    ensures dst + EncodeFields(done + fs[..i + 1]) == dst + EncodeFields(done + fs[..i]) + EncodeField(fs[i])
  {
    hide EncodeField;
    assert done + fs[..i + 1] == done + fs[..i] + [fs[i]];
    EncodeParts(done + fs[..i], [fs[i]]);
    assert EncodeFields([fs[i]]) == EncodeField(fs[i]) + [];
  }

  lemma {:induction false} EncodeParts(a: seq<Field>, b: seq<Field>)
    ensures EncodeFields(a + b) == EncodeFields(a) + EncodeFields(b)
  {
    hide EncodeField;
    if a == [] {
      assert a + b == b;
    } else {
      assert (a + b)[1..] == a[1..] + b;
      EncodeParts(a[1..], b);
    }
  }

  function NumberBytes(tag: nat, o: Option<nat>): Bytes {
    if o.Some? then EncodeField(NumberField(tag, o.value)) else []
  }

  function NameBytes(o: Option<Bytes>): Bytes {
    if o.Some? then EncodeField(Comparator(o.value)) else []
  }

  lemma {:induction false} OneName(o: Option<Bytes>)
    ensures EncodeFields(NameField(o)) == NameBytes(o)
  {
    hide EncodeField;
    assert o.Some? ==> EncodeFields(NameField(o)) == EncodeField(Comparator(o.value)) + [];
  }

  method PutNumber(dst: Bytes, tag: nat, o: Option<nat>) returns (r: Bytes)
    ensures r == dst + EncodeFields(Numbered(tag, o))
  {
    r := dst + NumberBytes(tag, o);
    OneField(tag, o);
  }

  lemma {:induction false} OneField(tag: nat, o: Option<nat>)
    ensures EncodeFields(Numbered(tag, o)) == NumberBytes(tag, o)
  {
    hide EncodeField;
    assert o.Some? ==> EncodeFields(Numbered(tag, o)) == EncodeField(NumberField(tag, o.value)) + [];
  }
}
