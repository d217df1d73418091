/** Reading a log back, from arbitrary bytes and from a log cut short by a crash. */
module LogReader {
  import opened ByteStrings
  import opened Reads
  import opened Crc32c
  import opened Log

  /** What stands at a file position: a fragment, the end of the file, or damage that is
      skipped up to `next`, with the number of bytes reported as dropped, if any are. */
  datatype Physical =
    | Record(kind: nat, data: Bytes, next: nat)
    | EndOfFile
    | Damaged(next: nat, dropped: Option<nat>)

  /** End of the block that holds file position `at`. */
  function Limit(at: nat): nat {
    (at / BLOCK_SIZE + 1) * BLOCK_SIZE
  }

  function Min(a: nat, b: nat): nat {
    if a < b then a else b
  }

  function DataLength(file: Bytes, at: nat): nat
    requires at + HEADER_SIZE <= |file|
  {
    file[at + 4] as nat + 256 * file[at + 5] as nat
  }

  /** The fragment whose header stands at `at`, in a block that ends at `end`. */
  function Parse(file: Bytes, at: nat, end: nat, whole: bool): (p: Physical)
    requires at + HEADER_SIZE <= end <= |file|
    ensures p.Record? ==> at < p.next <= |file|
    ensures p.Damaged? ==> p.next == end
  {
    var length := DataLength(file, at);
    if HEADER_SIZE + length > end - at then
      if whole then Damaged(end, Some(end - at)) else EndOfFile
    else if file[at + 6] == 0 && length == 0 then Damaged(end, None)
    else if !StampMatches(file[at..at + 4], file[at + 6..at + 7 + length]) then Damaged(end, Some(end - at))
    else Record(file[at + 6] as nat, file[at + 7..at + 7 + length], at + 7 + length)
  }

  /** The fragment at a position of any file, without the reader's buffer. */
  function ReadPhysical(file: Bytes, at: nat): (p: Physical)
    requires at <= |file|
    ensures p.Record? ==> at < p.next <= |file|
    ensures p.Damaged? ==> at < p.next <= |file|
    decreases |file| - at
  {
    var end := Min(|file|, Limit(at));
    var whole := Limit(at) <= |file|;
    if HEADER_SIZE <= end - at then Parse(file, at, end, whole)
    else if whole then ReadPhysical(file, end)
    else EndOfFile
  }

  /** The next whole record and the sizes of the drops reported on the way to it. */
  datatype Logical =
    | Got(record: Bytes, next: nat, dropped: seq<nat>)
    | NoMore(next: nat, dropped: seq<nat>)
  {
    function After(d: seq<nat>): Logical {
      match this
      case Got(r, n, e) => Got(r, n, d + e)
      case NoMore(n, e) => NoMore(n, d + e)
    }
  }

  function AsDrop(d: Option<nat>): seq<nat> {
    if d.Some? then [d.value] else []
  }

  function PartialDrop(scratch: Option<Bytes>): seq<nat> {
    if scratch.Some? && scratch.value != [] then [|scratch.value|] else []
  }

  function WholeDrop(scratch: Option<Bytes>): seq<nat> {
    if scratch.Some? then [|scratch.value|] else []
  }

  function ScratchSize(scratch: Option<Bytes>): nat {
    if scratch.Some? then |scratch.value| else 0
  }

  /** What a fragment does to a record under construction. */
  datatype Turn =
    | Complete(record: Bytes, dropped: seq<nat>)
    | Continue(scratch: Option<Bytes>, dropped: seq<nat>)
    | Stop

  function Handle(kind: nat, data: Bytes, scratch: Option<Bytes>): Turn {
    if kind == FULL then Complete(data, PartialDrop(scratch))
    else if kind == FIRST then Continue(Some(data), PartialDrop(scratch))
    else if kind == MIDDLE then
      if scratch.None? then Continue(None, [|data|]) else Continue(Some(scratch.value + data), [])
    else if kind == LAST then
      if scratch.None? then Continue(None, [|data|]) else Complete(scratch.value + data, [])
    else if kind == EOF then Stop
    else if kind == BAD_RECORD then Continue(None, WholeDrop(scratch))
    else Continue(None, [|data| + ScratchSize(scratch)])
  }

  /** Reading on from a position, with the fragments of an unfinished record, if any. */
  function ReadLogical(file: Bytes, at: nat, scratch: Option<Bytes>): (r: Logical)
    requires at <= |file|
    ensures r.Got? ==> at < r.next <= |file|
    ensures r.NoMore? ==> at <= r.next <= |file|
    decreases |file| - at
  {
    match ReadPhysical(file, at)
    case EndOfFile => NoMore(|file|, [])
    case Damaged(next, d) => ReadLogical(file, next, None).After(AsDrop(d) + WholeDrop(scratch))
    case Record(kind, data, next) =>
      match Handle(kind, data, scratch)
      case Complete(record, d) => Got(record, next, d)
      case Continue(s, d) => ReadLogical(file, next, s).After(d)
      case Stop => NoMore(next, [])
  }

  ghost function Code(p: Physical): nat {
    match p
    case Record(kind, _, _) => kind
    case EndOfFile => EOF
    case Damaged(_, _) => BAD_RECORD
  }

  ghost function Next(file: Bytes, p: Physical): nat {
    if p.EndOfFile? then |file| else p.next
  }

  ghost function Skipped(p: Physical): seq<nat> {
    if p.Damaged? then AsDrop(p.dropped) else []
  }

  /** One turn of the reading loop, seen from the record to come. */
  lemma {:induction false} OneTurn(file: Bytes, at: nat, scratch: Option<Bytes>, data: Bytes)
    requires at <= |file|
    requires var p := ReadPhysical(file, at); p.Record? ==> data == p.data
    ensures var p := ReadPhysical(file, at);
      match Handle(Code(p), data, scratch)
      case Complete(r, e) => ReadLogical(file, at, scratch) == Got(r, Next(file, p), Skipped(p) + e)
      case Stop => ReadLogical(file, at, scratch) == NoMore(Next(file, p), Skipped(p))
      case Continue(s, e) => at < Next(file, p) && ReadLogical(file, at, scratch) == ReadLogical(file, Next(file, p), s).After(Skipped(p) + e)
  {
    hide ReadPhysical;
    assert forall d: seq<nat> :: [] + d == d;
  }

  /** A reader with checksums on, from the start of the file. */
  class Reader {
    const file: Bytes
    /** Bytes of the file already read into the buffer. */
    var offset: nat
    var buffer: Bytes
    /** The last read was short. */
    var eof: bool
    /** Sizes of the drops told to the reporter. */
    var dropped: seq<nat>

    ghost predicate Valid()
      reads this
    {
      && |buffer| <= offset <= |file| && buffer == file[offset - |buffer|..offset]
      && (eof ==> offset == |file| && |file| < Limit(offset - |buffer|))
      && (!eof && buffer == [] ==> offset % BLOCK_SIZE == 0)
      && (!eof && buffer != [] ==> offset == Limit(offset - |buffer|))
    }

    /** Position of the first byte not yet consumed. */
    ghost function At(): nat
      requires Valid()
      reads this
    {
      offset - |buffer|
    }

    constructor (file: Bytes)
      ensures Valid() && this.file == file && At() == 0 && dropped == []
    {
      hide Limit;
      this.file := file;
      offset, buffer, eof, dropped := 0, [], false, [];
    }

    /** Reads the next block, or what there is of it. */
    method Fill()
      requires Valid() && !eof && |buffer| < HEADER_SIZE
      modifies `offset, `buffer, `eof
      ensures Valid() && offset == Min(|file|, Limit(old(offset))) && At() == old(offset)
      ensures eof || offset == old(offset) + BLOCK_SIZE
    {
      var n := Min(BLOCK_SIZE, |file| - offset);
      buffer := file[offset..offset + n];
      offset := offset + n;
      if n < BLOCK_SIZE {
        eof := true;
      }
    }

    /** Skips trailers and reads blocks until a header is in the buffer. */
    method FindHeader() returns (found: bool)
      requires Valid()
      modifies `offset, `buffer, `eof
      ensures Valid()
      ensures found ==> |buffer| >= HEADER_SIZE && ReadPhysical(file, At()) == ReadPhysical(file, old(At()))
      ensures !found ==> At() == |file| && ReadPhysical(file, old(At())) == EndOfFile
    {
      hide StampMatches;
      while |buffer| < HEADER_SIZE
        invariant Valid()
        invariant ReadPhysical(file, At()) == ReadPhysical(file, old(At()))
        decreases !eof, |file| - offset
      {
        if eof {
          buffer := [];
          return false;
        }
        Fill();
      }
      found := true;
    }

    method ReadPhysicalRecord() returns (kind: nat, result: Bytes)
      requires Valid()
      modifies this
      ensures Valid()
      ensures var p := ReadPhysical(file, old(At()));
        && kind == Code(p) && (p.Record? ==> result == p.data) && At() == Next(file, p)
        && dropped == old(dropped) + Skipped(p)
    {
      var found := FindHeader();
      if found {
        assert ReadPhysical(file, At()) == Parse(file, At(), offset, !eof);
        kind, result := ParseHeader();
      } else {
        kind, result := EOF, [];
      }
    }

    ghost predicate Returns(r: Logical, ok: bool, record: Bytes, before: seq<nat>)
      requires Valid()
      reads this
    {
      match r
      case Got(rec, next, d) => ok && record == rec && At() == next && dropped == before + d
      case NoMore(next, d) => !ok && At() == next && dropped == before + d
    }

    /** The next record, put together from its fragments. */
    method ReadRecord() returns (ok: bool, record: Bytes)
      requires Valid()
      modifies this
      ensures Valid() && Returns(ReadLogical(file, old(At()), None), ok, record, old(dropped))
    {
      hide ReadPhysical, ReadLogical, Handle, Skipped, Limit, Logical.After;
      var scratch: Option<Bytes> := None;
      ghost var start, d: seq<nat> := At(), [];
      AfterAfter(ReadLogical(file, start, None), [], []);
      while true
        invariant Valid() && dropped == old(dropped) + d
        invariant ReadLogical(file, start, None) == ReadLogical(file, At(), scratch).After(d)
        decreases |file| - At()
      {
        ghost var at, pending, p := At(), scratch, ReadPhysical(file, At());
        var kind, fragment := ReadPhysicalRecord();
        var turn := Switch(kind, fragment, scratch);
        OneTurn(file, at, pending, fragment);
        match turn
        case Complete(r, e) =>
          AfterIs(Got(r, At(), Skipped(p) + e), d);
          return true, r;
        case Stop =>
          AfterIs(NoMore(At(), Skipped(p)), d);
          return false, [];
        case Continue(s, e) =>
          AfterAfter(ReadLogical(file, At(), s), d, Skipped(p) + e);
          d := d + (Skipped(p) + e);
          scratch := s;
      }
    }

    /** The switch on the type of a fragment. */
    method Switch(kind: nat, fragment: Bytes, pending: Option<Bytes>) returns (turn: Turn)
      modifies `dropped
      ensures turn == Handle(kind, fragment, pending)
      ensures dropped == old(dropped) + if turn.Stop? then [] else turn.dropped
    {
      var inFragmented := pending.Some?;
      var scratch := if inFragmented then pending.value else [];
      if kind == FULL {
        if inFragmented && scratch != [] {
          ReportCorruption(|scratch|);
        }
        return Complete(fragment, PartialDrop(pending));
      } else if kind == FIRST {
        if inFragmented && scratch != [] {
          ReportCorruption(|scratch|);
        }
        return Continue(Some(fragment), PartialDrop(pending));
      } else if kind == MIDDLE {
        if !inFragmented {
          ReportCorruption(|fragment|);
          return Continue(None, [|fragment|]);
        }
        return Continue(Some(scratch + fragment), []);
      } else if kind == LAST {
        if !inFragmented {
          ReportCorruption(|fragment|);
          return Continue(None, [|fragment|]);
        }
        return Complete(scratch + fragment, []);
      } else if kind == EOF {
        return Stop;
      } else if kind == BAD_RECORD {
        if inFragmented {
          ReportCorruption(|scratch|);
        }
        return Continue(None, WholeDrop(pending));
      } else {
        var lost := |fragment| + if inFragmented then |scratch| else 0;
        ReportCorruption(lost);
        return Continue(None, [lost]);
      }
    }

    method ReportCorruption(bytes: nat)
      modifies `dropped
      ensures dropped == old(dropped) + [bytes]
    {
      dropped := dropped + [bytes];
    }

    /** Takes the fragment at the front of the buffer apart. */
    method ParseHeader() returns (kind: nat, result: Bytes)
      requires Valid() && |buffer| >= HEADER_SIZE
      modifies `buffer, `dropped
      ensures Valid()
      ensures var p := Parse(file, old(At()), offset, !eof);
        && kind == Code(p) && (p.Record? ==> result == p.data) && At() == Next(file, p)
        && dropped == old(dropped) + Skipped(p)
    {
      hide StampMatches, Limit;
      ghost var at := At();
      StillInBlock(at, offset, offset);
      var length := buffer[4] as nat + 256 * buffer[5] as nat;
      assert length == DataLength(file, at);
      if HEADER_SIZE + length > |buffer| {
        var size := |buffer|;
        buffer := [];
        if !eof {
          dropped := dropped + [size];
          return BAD_RECORD, [];
        }
        return EOF, [];
      }
      BufferParts(file, at, offset, buffer, length);
      if buffer[6] as nat == ZERO && length == 0 {
        buffer := [];
        return BAD_RECORD, [];
      }
      if !StampMatches(buffer[..4], buffer[6..7 + length]) {
        dropped := dropped + [|buffer|];
        buffer := [];
        return BAD_RECORD, [];
      }
      StillInBlock(at, at + 7 + length, offset);
      kind, result := buffer[6] as nat, buffer[7..7 + length];
      buffer := buffer[7 + length..];
    }
  }

  lemma {:induction false} BufferParts(file: Bytes, at: nat, end: nat, buffer: Bytes, length: nat)
    requires at <= end <= |file| && buffer == file[at..end] && HEADER_SIZE + length <= |buffer|
    ensures buffer[..4] == file[at..at + 4] && buffer[6..7 + length] == file[at + 6..at + 7 + length]
    ensures buffer[7..7 + length] == file[at + 7..at + 7 + length] && buffer[7 + length..] == file[at + 7 + length..end]
  {
    Slice(file, at, end, 0, 4);
    Slice(file, at, end, 6, 7 + length);
    Slice(file, at, end, 7, 7 + length);
    Slice(file, at, end, 7 + length, end - at);
  }

  lemma {:induction false} Slice(s: Bytes, lo: nat, hi: nat, i: nat, j: nat)
    requires lo <= hi <= |s| && i <= j <= hi - lo
    ensures s[lo..hi][i..j] == s[lo + i..lo + j]
  {
    assert forall k :: 0 <= k < j - i ==> s[lo..hi][i..j][k] == s[lo + i..lo + j][k];
  }

  lemma {:induction false} AfterIs(r: Logical, d: seq<nat>)
    ensures r.After(d) == if r.Got? then Got(r.record, r.next, d + r.dropped) else NoMore(r.next, d + r.dropped)
  {
  }

  lemma {:induction false} AfterAfter(r: Logical, d: seq<nat>, e: seq<nat>)
    ensures r.After(e).After(d) == r.After(d + e)
    ensures r.After([]) == r
  {
  }

  lemma {:induction false} StillInBlock(at: nat, next: nat, end: nat)
    requires at <= next <= end <= Limit(at)
    ensures next < end ==> Limit(next) == Limit(at)
    ensures next == Limit(at) ==> next % BLOCK_SIZE == 0
    ensures end < Limit(at) ==> end < Limit(next)
  {
  }

  // ----- logs cut short

  /** The file holds these bytes at this position, as far as it goes. */
  ghost predicate Agrees(file: Bytes, at: nat, w: Bytes) {
    at <= |file| && forall i :: 0 <= i < |w| && at + i < |file| ==> file[at + i] == w[i]
  }

  lemma {:induction false} AgreesPart(file: Bytes, at: nat, a: Bytes, b: Bytes)
    requires Agrees(file, at, a + b)
    ensures Agrees(file, at, a)
    ensures at + |a| <= |file| ==> Agrees(file, at + |a|, b)
  {
    forall i | 0 <= i < |a| && at + i < |file|
      ensures file[at + i] == a[i]
    {
      assert (a + b)[i] == a[i];
    }
    forall i | 0 <= i < |b| && at + |a| + i < |file|
      ensures file[at + |a| + i] == b[i]
    {
      assert (a + b)[|a| + i] == b[i];
    }
  }

  lemma {:induction false} AgreesWhole(file: Bytes, at: nat, w: Bytes)
    requires Agrees(file, at, w) && at + |w| <= |file|
    ensures file[at..at + |w|] == w
  {
  }

  lemma {:induction false} FragmentParts(t: nat, data: Bytes)
    requires t < 256 && |data| <= 0xffff
    ensures var w := Fragment(t, data);
      && w[4] as nat + 256 * w[5] as nat == |data| && w[6] as nat == t
      && w[..4] == Stamp([t as Byte] + data) && w[6..] == [t as Byte] + data && w[7..] == data
  {
    hide Stamp;
  }

  /** A fragment that stands whole in the file is read as it was written. */
  lemma {:induction false} ParsesFragment(file: Bytes, at: nat, end: nat, whole: bool, t: nat, data: Bytes)
    requires FULL <= t <= LAST && |data| <= 0xffff && at + HEADER_SIZE + |data| <= end <= |file|
    requires Agrees(file, at, Fragment(t, data))
    ensures Parse(file, at, end, whole) == Record(t, data, at + HEADER_SIZE + |data|)
  {
    hide Stamp, StampMatches, Fragment;
    var w := Fragment(t, data);
    FragmentParts(t, data);
    AgreesWhole(file, at, w);
    BufferParts(file, at, at + |w|, w, |data|);
    assert w[6..7 + |data|] == w[6..] && w[7..7 + |data|] == w[7..];
    assert file[at + 4] == w[4] && file[at + 5] == w[5] && file[at + 6] == w[6];
    OwnStampMatches([t as Byte] + data);
  }

  /** Whatever the writer appended next, a reader finds it if it is all there, and otherwise
      takes the file to end before it. */
  lemma {:induction false} ReadsFragment(file: Bytes, at: nat, left: Bytes, begin: bool)
    requires Agrees(file, at, NextFragment(at, left, begin))
    ensures var n, size := FragmentLength(at, left), |NextFragment(at, left, begin)|;
      if at + size <= |file| then
        ReadPhysical(file, at) == Record(FragmentType(begin, n == |left|), left[..n], at + size)
      else ReadPhysical(file, at) == EndOfFile
  {
    var n, pad := FragmentLength(at, left), Padding(at);
    var t := FragmentType(begin, n == |left|);
    hide Fragment, ReadPhysical, Limit, Padding, Available, FragmentLength, FragmentType;
    AgreesPart(file, at, Zeros(pad), Fragment(t, left[..n]));
    BlockFacts(at, n);
    SkipsTrailer(file, at);
    if at + pad <= |file| {
      ReadsHere(file, at + pad, t, left[..n]);
    }
  }

  lemma {:induction false} SkipsTrailer(file: Bytes, at: nat)
    requires at <= |file|
    ensures if at + Padding(at) <= |file| then ReadPhysical(file, at) == ReadPhysical(file, at + Padding(at))
            else ReadPhysical(file, at) == EndOfFile
  {
    hide Parse, Limit;
    BlockFacts(at, 0);
  }

  lemma {:induction false} BlockFacts(at: nat, n: nat)
    requires n <= Available(at)
    ensures Padding(at) > 0 ==> Limit(at) == at + Padding(at)
    ensures at + Padding(at) + HEADER_SIZE + n <= Limit(at + Padding(at))
  {
  }

  lemma {:induction false} ReadsHere(file: Bytes, at: nat, t: nat, data: Bytes)
    requires FULL <= t <= LAST && |data| <= 0xffff && at + HEADER_SIZE + |data| <= Limit(at)
    requires Agrees(file, at, Fragment(t, data))
    ensures if at + HEADER_SIZE + |data| <= |file|
        then ReadPhysical(file, at) == Record(t, data, at + HEADER_SIZE + |data|)
            else ReadPhysical(file, at) == EndOfFile
  {
    hide Limit, Fragment, Stamp, StampMatches;
    var end := Min(|file|, Limit(at));
    if at + HEADER_SIZE + |data| <= |file| {
      ParsesFragment(file, at, end, Limit(at) <= |file|, t, data);
    } else if at + HEADER_SIZE <= end {
      FragmentParts(t, data);
      var w := Fragment(t, data);
      assert file[at + 4] == w[4] && file[at + 5] == w[5];
      assert DataLength(file, at) == |data|;
    }
  }

  function Pending(begin: bool, scratch: Bytes): Option<Bytes> {
    if begin then None else Some(scratch)
  }

  /** The fragments of a record join up to the record if they are all in the file, and
      otherwise give nothing and no report. */
  lemma {:induction false} ReadsRecord(file: Bytes, at: nat, left: Bytes, begin: bool, scratch: Bytes)
    requires Agrees(file, at, Written(at, left, begin)) && (begin ==> scratch == [])
    ensures var end := at + |Written(at, left, begin)|;
      if end <= |file| then ReadLogical(file, at, Pending(begin, scratch)) == Got(scratch + left, end, [])
      else ReadLogical(file, at, Pending(begin, scratch)) == NoMore(|file|, [])
    decreases |left|, if Available(at) == 0 then 1 else 0
  {
    var n, here := FragmentLength(at, left), NextFragment(at, left, begin);
    var next := at + |here|;
    hide Written, ReadPhysical, ReadLogical, NextFragment, FragmentLength, Padding, Available, Pending;
    RoomAhead(at, left, begin);
    WrittenParts(at, left, begin);
    if n < |left| {
      AgreesPart(file, at, here, Written(next, left[n..], false));
    }
    ReadsFragment(file, at, left, begin);
    TakesFragment(file, at, left, n, begin, scratch, next);
    if n < |left| && next <= |file| {
      ReadsRecord(file, next, left[n..], false, scratch + left[..n]);
      assert (scratch + left[..n]) + left[n..] == scratch + left;
    }
  }

  lemma {:induction false} RoomAhead(at: nat, left: Bytes, begin: bool)
    ensures var n, next := FragmentLength(at, left), at + |NextFragment(at, left, begin)|;
      n < |left| ==> Available(at) == n && (n == 0 ==> Available(next) > 0)
  {
    hide NextFragment;
  }

  lemma {:induction false} WrittenParts(at: nat, left: Bytes, begin: bool)
    ensures var n, here := FragmentLength(at, left), NextFragment(at, left, begin);
      Written(at, left, begin) == if n == |left| then here else here + Written(at + |here|, left[n..], false)
  {
    hide NextFragment;
  }

  lemma {:induction false} TakesFragment(file: Bytes, at: nat, left: Bytes, n: nat, begin: bool, scratch: Bytes,
        next: nat)
    requires at <= |file| && n <= |left| && (begin ==> scratch == [])
    requires if next <= |file| then ReadPhysical(file, at) == Record(FragmentType(begin, n == |left|), left[..n], next)
             else ReadPhysical(file, at) == EndOfFile
    ensures next > |file| ==> ReadLogical(file, at, Pending(begin, scratch)) == NoMore(|file|, [])
    ensures next <= |file| && n == |left| ==>
      ReadLogical(file, at, Pending(begin, scratch)) == Got(scratch + left, next, [])
    ensures next <= |file| && n < |left| ==>
      ReadLogical(file, at, Pending(begin, scratch)) == ReadLogical(file, next, Pending(false, scratch + left[..n]))
  {
    hide ReadPhysical;
    if next <= |file| {
      var joined := scratch + left[..n];
      assert n == |left| ==> joined == scratch + left;
      assert begin ==> joined == left[..n];
      AfterAfter(ReadLogical(file, next, Some(joined)), [], []);
    }
  }

  datatype Contents = Contents(records: seq<Bytes>, dropped: seq<nat>)

  /** All the records a reader returns from a position on, and all its reports. */
  function ReadAll(file: Bytes, at: nat): Contents
    requires at <= |file|
    decreases |file| - at
  {
    match ReadLogical(file, at, None)
    case NoMore(_, d) => Contents([], d)
    case Got(r, next, d) =>
      var rest := ReadAll(file, next);
      Contents([r] + rest.records, d + rest.dropped)
  }

  /** How many records end at or before file position `n`. */
  function WholeRecords(at: nat, records: seq<Bytes>, n: nat): (k: nat)
    ensures k <= |records|
    decreases |records|
  {
    if records == [] || n < at + |Written(at, records[0], true)| then 0
    else 1 + WholeRecords(at + |Written(at, records[0], true)|, records[1..], n)
  }

  lemma {:induction false} AllWhole(at: nat, rs: seq<Bytes>)
    ensures WholeRecords(at, rs, at + |LogOf(at, rs)|) == |rs|
    decreases |rs|
  {
    hide Written;
    if rs != [] {
      AllWhole(at + |Written(at, rs[0], true)|, rs[1..]);
    }
  }

  lemma {:induction false} ReadsPrefix(file: Bytes, at: nat, records: seq<Bytes>)
    requires Agrees(file, at, LogOf(at, records)) && |file| <= at + |LogOf(at, records)|
    ensures ReadAll(file, at) == Contents(records[..WholeRecords(at, records, |file|)], [])
    decreases |records|
  {
    hide ReadLogical, Written;
    if records == [] {
      NothingLeft(file, at);
    } else {
      var w, rest := Written(at, records[0], true), records[1..];
      AgreesPart(file, at, w, LogOf(at + |w|, rest));
      ReadsRecord(file, at, records[0], true, []);
      if at + |w| <= |file| {
        ReadsPrefix(file, at + |w|, rest);
        var k := WholeRecords(at + |w|, rest, |file|);
        assert [] + records[0] == records[0];
        assert [records[0]] + rest[..k] == records[..k + 1];
      } else {
        assert records[..0] == [];
      }
    }
  }

  lemma {:induction false} NothingLeft(file: Bytes, at: nat)
    requires |file| <= at <= |file|
    ensures ReadLogical(file, at, None) == NoMore(|file|, [])
  {
    hide Parse;
    assert Limit(at) > at;
  }

  lemma {:induction false} WholeRecordsFit(at: nat, records: seq<Bytes>, n: nat)
    requires at <= n
    ensures var k := WholeRecords(at, records, n);
      && at + |LogOf(at, records[..k])| <= n
      && (k < |records| ==> n < at + |LogOf(at, records[..k + 1])|)
    decreases |records|
  {
    hide Written;
    if records != [] {
      var w, k := Written(at, records[0], true), WholeRecords(at, records, n);
      if k == 0 {
        assert records[..1][1..] == [];
      } else {
        WholeRecordsFit(at + |w|, records[1..], n);
        assert records[..k][1..] == records[1..][..k - 1];
        assert k < |records| ==> records[..k + 1][1..] == records[1..][..k];
      }
    }
  }

  /** However a crash cuts the log short, a reader returns exactly the records that are wholly
      there and reports no corruption. */
  lemma {:induction false} TruncatedLog(records: seq<Bytes>, n: nat)
    requires n <= |LogOf(0, records)|
    ensures exists k | 0 <= k <= |records| ::
      && ReadAll(LogOf(0, records)[..n], 0) == Contents(records[..k], [])
      && |LogOf(0, records[..k])| <= n && (k < |records| ==> n < |LogOf(0, records[..k + 1])|)
  {
    hide Written, ReadAll;
    ReadsPrefix(LogOf(0, records)[..n], 0, records);
    WholeRecordsFit(0, records, n);
  }

  /** A log that was not cut short gives back all its records. */
  lemma {:induction false} WholeLog(records: seq<Bytes>)
    ensures ReadAll(LogOf(0, records), 0) == Contents(records, [])
  {
    hide Written, ReadAll, WholeRecords;
    AllWhole(0, records);
    ReadsPrefix(LogOf(0, records), 0, records);
    assert records[..|records|] == records;
  }
}
