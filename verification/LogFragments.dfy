/** Where the records that a log reader returns come from, whatever the bytes of the file. */
module LogFragments {
  import opened ByteStrings
  import opened Reads
  import opened Crc32c
  import opened Log
  import opened LogReader

  /** A stretch of the file: checksum, length, type, data. */
  datatype Piece = Piece(at: nat, kind: nat, data: Bytes) {
    function End(): nat {
      at + 7 + |data|
    }
  }

  /** The piece stands in the file, within one block, and its checksum is that of its type and data. */
  ghost predicate Stands(file: Bytes, p: Piece) {
    && p.End() <= |file| && p.at / 32768 == (p.End() - 1) / 32768
    && file[p.at + 4] as nat + 256 * file[p.at + 5] as nat == |p.data|
    && file[p.at + 6] as nat == p.kind && file[p.at + 7..p.End()] == p.data
    && StampMatches(file[p.at..p.at + 4], file[p.at + 6..p.End()])
  }

  /** The next piece is right behind, or at the start of the next block if no header fits before it. */
  predicate Follows(end: nat, at: nat) {
    end == at || (at % 32768 == 0 && end < at < end + 7)
  }

  function Data(ps: seq<Piece>): Bytes {
    if ps == [] then [] else Data(ps[..|ps| - 1]) + ps[|ps| - 1].data
  }

  /** Pieces one behind the other, the first of type 2 and the others of type 3. */
  ghost predicate Begun(file: Bytes, ps: seq<Piece>) {
    && ps != [] && (forall i :: 0 <= i < |ps| ==> Stands(file, ps[i]) && ps[i].kind == if i == 0 then 2 else 3)
    && forall i :: 0 < i < |ps| ==> Follows(ps[i - 1].End(), ps[i].at)
  }

  /** Pieces that make up a record: one of type 1, or a run that has begun and ends with one of type 4. */
  ghost predicate MakesRecord(file: Bytes, ps: seq<Piece>, record: Bytes) {
    && ps != [] && Data(ps) == record
    && var n := |ps| - 1;
      && Stands(file, ps[n])
      && if n == 0 then ps[n].kind == 1
         else Begun(file, ps[..n]) && ps[n].kind == 4 && Follows(ps[n - 1].End(), ps[n].at)
  }

  lemma {:induction false} ParsedStands(file: Bytes, at: nat, end: nat, whole: bool)
    requires at + 7 <= end <= |file| && end <= Limit(at) && Parse(file, at, end, whole).Record?
    ensures var r := Parse(file, at, end, whole);
      Stands(file, Piece(at, r.kind, r.data)) && at + 7 + |r.data| == r.next
  {
    hide StampMatches;
    var r := Parse(file, at, end, whole);
    InOneBlock(at, r.next);
  }

  lemma {:induction false} InOneBlock(at: nat, next: nat)
    requires at < next <= Limit(at)
    ensures at / 32768 == (next - 1) / 32768
  {
  }

  /** What is read as a fragment stands in the file. */
  lemma {:induction false} PhysicalStands(file: Bytes, at: nat) returns (p: Piece)
    requires at <= |file| && ReadPhysical(file, at).Record?
    ensures var r := ReadPhysical(file, at); p.kind == r.kind && p.data == r.data && p.End() == r.next
    ensures Stands(file, p) && Follows(at, p.at)
    decreases |file| - at
  {
    hide Parse, Stands;
    var end := Min(|file|, Limit(at));
    if HEADER_SIZE <= end - at {
      var whole := Limit(at) <= |file|;
      var r := Parse(file, at, end, whole);
      p := Piece(at, r.kind, r.data);
      ParsedStands(file, at, end, whole);
    } else {
      p := PhysicalStands(file, end);
      NextBlock(at, end, p.at);
    }
  }

  lemma {:induction false} NextBlock(at: nat, end: nat, next: nat)
    requires end == Limit(at) && end - at < 7 && Follows(end, next)
    ensures Follows(at, next)
  {
  }

  // ----- records

  /** The data collected so far stands in the file, up to here. */
  ghost predicate Collected(file: Bytes, ps: seq<Piece>, at: nat, scratch: Option<Bytes>) {
    scratch.Some? ==> Begun(file, ps) && Data(ps) == scratch.value && ps[|ps| - 1].End() == at
  }

  lemma {:induction false} OnePiece(p: Piece)
    ensures Data([p]) == p.data
  {
    assert [p][..0] == [];
  }

  lemma {:induction false} OneRecord(file: Bytes, p: Piece)
    requires Stands(file, p) && p.kind == 1
    ensures MakesRecord(file, [p], p.data)
  {
    OnePiece(p);
  }

  lemma {:induction false} FirstPiece(file: Bytes, p: Piece)
    requires Stands(file, p) && p.kind == 2
    ensures Begun(file, [p]) && Data([p]) == p.data
  {
    OnePiece(p);
  }

  lemma {:induction false} BegunMore(file: Bytes, ps: seq<Piece>, p: Piece)
    requires Begun(file, ps) && Stands(file, p) && p.kind == 3 && Follows(ps[|ps| - 1].End(), p.at)
    ensures Begun(file, ps + [p])
  {
    hide Stands, Follows;
  }

  lemma {:induction false} DataMore(ps: seq<Piece>, p: Piece)
    ensures Data(ps + [p]) == Data(ps) + p.data
  {
    assert (ps + [p])[..|ps|] == ps;
  }

  lemma {:induction false} RecordMade(file: Bytes, ps: seq<Piece>, p: Piece)
    requires Begun(file, ps) && Stands(file, p) && p.kind == 4 && Follows(ps[|ps| - 1].End(), p.at)
    ensures MakesRecord(file, ps + [p], Data(ps) + p.data)
  {
    hide Stands, Follows;
    DataMore(ps, p);
    assert (ps + [p])[..|ps|] == ps;
  }

  /** Whatever is in the file, a record that the reader returns is made of pieces that stand in it, one
      behind the other, up to where the reader then stands. */
  lemma {:induction false} ReadsWhatStands(file: Bytes, at: nat, ps: seq<Piece>, scratch: Option<Bytes>)
    returns (qs: seq<Piece>)
    requires at <= |file| && Collected(file, ps, at, scratch)
    ensures var r := ReadLogical(file, at, scratch);
      r.Got? ==> MakesRecord(file, qs, r.record) && qs[|qs| - 1].End() == r.next
    decreases |file| - at
  {
    hide ReadPhysical, Stands, Follows, Begun, Data, MakesRecord;
    qs := [];
    match ReadPhysical(file, at)
    case EndOfFile =>
    case Damaged(next, d) =>
      qs := ReadsWhatStands(file, next, [], None);
    case Record(kind, data, next) =>
      var p := PhysicalStands(file, at);
      match Handle(kind, data, scratch)
      case Complete(record, d) =>
        if kind == FULL {
          qs := [p];
          OneRecord(file, p);
        } else {
          qs := ps + [p];
          BegunIs(file, ps);
          RecordMade(file, ps, p);
        }
      case Continue(s, d) =>
        var next' := if s.None? then [] else if kind == FIRST then [p] else ps + [p];
        if kind == FIRST {
          FirstPiece(file, p);
        } else if s.Some? {
          BegunIs(file, ps);
          BegunMore(file, ps, p);
          DataMore(ps, p);
        }
        qs := ReadsWhatStands(file, next, next', s);
      case Stop =>
  }

  lemma {:induction false} BegunIs(file: Bytes, ps: seq<Piece>)
    requires Begun(file, ps)
    ensures ps != []
  {
  }

  /** ... and so for all the records read from a file. */
  ghost predicate AllStand(file: Bytes, records: seq<Bytes>) {
    forall r :: r in records ==> exists ps: seq<Piece> :: MakesRecord(file, ps, r)
  }

  lemma {:induction false} AllReadStand(file: Bytes, at: nat)
    requires at <= |file|
    ensures AllStand(file, ReadAll(file, at).records)
    decreases |file| - at
  {
    hide ReadLogical, MakesRecord;
    if ReadLogical(file, at, None).Got? {
      var ps := ReadsWhatStands(file, at, [], None);
      AllReadStand(file, ReadLogical(file, at, None).next);
    }
  }

  // ----- reports

  /** The end of the block, or of the file within it. */
  function BlockEnd(file: Bytes, at: nat): nat {
    if (at / 32768 + 1) * 32768 <= |file| then (at / 32768 + 1) * 32768 else |file|
  }

  /** A header stands here, but the length in it reaches beyond a block that is wholly in the file, or it is no
      empty one of type 0 and its checksum is not accepted. */
  ghost predicate IsDamaged(file: Bytes, at: nat) {
    && at + 7 <= BlockEnd(file, at)
    && var next := at + 7 + file[at + 4] as nat + 256 * file[at + 5] as nat;
      if next > BlockEnd(file, at) then BlockEnd(file, at) % 32768 == 0
      else (next > at + 7 || file[at + 6] != 0) && !StampMatches(file[at..at + 4], file[at + 6..next])
  }

  /** Damage is reported with all that is left of the block, and then what was collected of a record. */
  lemma {:induction false} ReportsDamage(file: Bytes, at: nat, scratch: Option<Bytes>)
    requires at <= |file| && IsDamaged(file, at)
    ensures var r := ReadLogical(file, at, scratch);
      var d := [BlockEnd(file, at) - at] + if scratch.Some? then [|scratch.value|] else [];
      d <= r.dropped
  {
    hide StampMatches;
    var end := BlockEnd(file, at);
    WholeBlock(file, at);
    assert ReadPhysical(file, at) == Damaged(end, Some(end - at));
  }

  lemma {:induction false} WholeBlock(file: Bytes, at: nat)
    requires at < |file|
    ensures BlockEnd(file, at) == Min(|file|, Limit(at)) && at < BlockEnd(file, at)
    ensures BlockEnd(file, at) % 32768 == 0 ==> Limit(at) <= |file|
  {
  }
}
