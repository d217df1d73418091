/** A batch of updates in its serialized form. */
module WriteBatch {
  import opened ByteStrings
  import opened InternalKeys
  import opened Reads
  import opened Coding
  import opened Updates

  const HEADER: nat := 12
  const TWO_31: nat := 0x8000_0000

  predicate Fits(op: Op) {
    |op.key| < TWO_32 && (op.Put? ==> |op.value| < TWO_32)
  }

  predicate AllFit(ops: seq<Op>) {
    forall i :: 0 <= i < |ops| ==> Fits(ops[i])
  }

  function EncodeOp(op: Op): (b: Bytes)
    requires Fits(op)
    ensures b != []
  {
    match op
    case Put(key, value) => [1] + LengthPrefixed(key) + LengthPrefixed(value)
    case Delete(key) => [0] + LengthPrefixed(key)
  }

  function EncodeOps(ops: seq<Op>): Bytes
    requires AllFit(ops)
  {
    if ops == [] then [] else EncodeOp(ops[0]) + EncodeOps(ops[1..])
  }

  datatype Outcome = Outcome(ops: seq<Op>, ok: bool)

  /** The update at the front of the input, and what follows it. */
  function ParseOp(input: Bytes): (r: Option<Parsed<Op>>)
    requires input != []
    ensures r.Some? ==> |r.value.rest| < |input|
  {
    if input[0] == 1 then
      match GetLengthPrefixedSlice(input[1..])
      case None => None
      case Some(k) =>
        match GetLengthPrefixedSlice(k.rest)
        case None => None
        case Some(v) => Some(Parsed(Put(k.value, v.value), v.rest))
    else if input[0] == 0 then
      match GetLengthPrefixedSlice(input[1..])
      case None => None
      case Some(k) => Some(Parsed(Delete(k.value), k.rest))
    else None
  }

  /** The updates handed to the handler before the input ends or turns out damaged. */
  function ParseOps(input: Bytes): Outcome
    decreases |input|
  {
    if input == [] then Outcome([], true)
    else
      match ParseOp(input)
      case None => Outcome([], false)
      case Some(p) => var rest := ParseOps(p.rest); Outcome([p.value] + rest.ops, rest.ok)
  }

  lemma {:induction false} OpRoundTrip(op: Op, rest: Bytes)
    requires Fits(op)
    ensures ParseOp(EncodeOp(op) + rest) == Some(Parsed(op, rest))
  {
    hide LengthPrefixed, GetLengthPrefixedSlice;
    var b := EncodeOp(op) + rest;
    match op
    case Put(key, value) =>
      assert b[1..] == LengthPrefixed(key) + (LengthPrefixed(value) + rest);
      LengthPrefixedRoundTrip(key, LengthPrefixed(value) + rest);
      LengthPrefixedRoundTrip(value, rest);
    case Delete(key) =>
      assert b[1..] == LengthPrefixed(key) + rest;
      LengthPrefixedRoundTrip(key, rest);
  }

  lemma {:induction false} OpsRoundTrip(ops: seq<Op>)
    requires AllFit(ops)
    ensures ParseOps(EncodeOps(ops)) == Outcome(ops, true)
    decreases |ops|
  {
    hide EncodeOp, ParseOp;
    if ops != [] {
      OpRoundTrip(ops[0], EncodeOps(ops[1..]));
      OpsRoundTrip(ops[1..]);
      assert [ops[0]] + ops[1..] == ops;
    }
  }

  lemma {:induction false} EncodeAppends(a: seq<Op>, b: seq<Op>)
    requires AllFit(a) && AllFit(b)
    ensures AllFit(a + b) && EncodeOps(a + b) == EncodeOps(a) + EncodeOps(b)
    decreases |a|
  {
    hide EncodeOp;
    if a == [] {
      assert a + b == b;
    } else {
      EncodeAppends(a[1..], b);
      assert (a + b)[1..] == a[1..] + b;
    }
  }

  /** The sequence number in the header. */
  function Sequence(rep: Bytes): nat
    requires |rep| >= HEADER
  {
    FixedValue(rep[..8])
  }

  /** The count in the header: 32 bits, read as a signed number. */
  function Count(rep: Bytes): int
    requires |rep| >= HEADER
  {
    var u := FixedValue(rep[8..12]);
    if u < TWO_31 then u else u - TWO_32
  }

  function WithCount(rep: Bytes, n: int): (r: Bytes)
    requires |rep| >= HEADER
    ensures |r| == |rep| && r[HEADER..] == rep[HEADER..]
  {
    rep[..8] + EncodeFixed32(n % TWO_32) + rep[12..]
  }

  /** The bytes of a batch with this sequence number and these updates. */
  ghost predicate Holds(rep: Bytes, sequence: nat, ops: seq<Op>) {
    && |rep| >= HEADER && AllFit(ops) && |ops| < TWO_31
    && Sequence(rep) == sequence && Count(rep) == |ops| && rep[HEADER..] == EncodeOps(ops)
  }

  lemma {:induction false} SetCountKeeps(rep: Bytes, n: int)
    requires |rep| >= HEADER && 0 <= n < TWO_31
    ensures Sequence(WithCount(rep, n)) == Sequence(rep) && Count(WithCount(rep, n)) == n
  {
    hide FixedValue, EncodeFixed32;
    var r := WithCount(rep, n);
    assert r[..8] == rep[..8];
    assert r[8..12] == EncodeFixed32(n % TWO_32);
  }

  lemma {:induction false} TwoOps(ops: seq<Op>, op: Op)
    requires AllFit(ops) && Fits(op)
    ensures AllFit(ops + [op]) && EncodeOps(ops + [op]) == EncodeOps(ops) + EncodeOp(op)
  {
    hide EncodeOp;
    EncodeAppends(ops, [op]);
    assert [op][1..] == [];
    assert EncodeOps([op]) == EncodeOp(op) + [];
  }

  lemma {:induction false} OpAppended(before: Bytes, rep: Bytes, op: Op)
    requires |before| >= HEADER && Fits(op) && rep == WithCount(before, Count(before) + 1) + EncodeOp(op)
    ensures forall s, ops :: Holds(before, s, ops) && |ops| + 1 < TWO_31 ==> Holds(rep, s, ops + [op])
  {
    hide EncodeOp, Sequence, Count, WithCount;
    forall s, ops | Holds(before, s, ops) && |ops| + 1 < TWO_31
      ensures Holds(rep, s, ops + [op])
    {
      var counted := WithCount(before, Count(before) + 1);
      SetCountKeeps(before, Count(before) + 1);
      HeaderOf(counted, EncodeOp(op));
      TwoOps(ops, op);
    }
  }

  lemma {:induction false} HeaderOf(rep: Bytes, more: Bytes)
    requires |rep| >= HEADER
    ensures Sequence(rep + more) == Sequence(rep) && Count(rep + more) == Count(rep)
    ensures (rep + more)[HEADER..] == rep[HEADER..] + more
  {
    assert (rep + more)[..8] == rep[..8] && (rep + more)[8..12] == rep[8..12];
  }

  /** What iterating over any bytes hands to the handler, and whether it ends well. */
  function Replayed(rep: Bytes): Outcome {
    if |rep| < HEADER then Outcome([], false)
    else
      var p := ParseOps(rep[HEADER..]);
      Outcome(p.ops, p.ok && |p.ops| == Count(rep))
  }

  lemma {:induction false} ParsesThenStops(ops: seq<Op>, rest: Bytes)
    requires AllFit(ops) && (rest == [] || rest[0] > 1)
    ensures ParseOps(EncodeOps(ops) + rest) == Outcome(ops, rest == [])
    decreases |ops|
  {
    hide EncodeOp, ParseOp, Fits;
    if ops == [] {
      assert EncodeOps(ops) + rest == rest;
      StopsAtUnknown(rest);
    } else {
      var more := EncodeOps(ops[1..]) + rest;
      assert EncodeOps(ops) + rest == EncodeOp(ops[0]) + more;
      OpRoundTrip(ops[0], more);
      ParsesThenStops(ops[1..], rest);
      assert [ops[0]] + ops[1..] == ops;
    }
  }

  lemma {:induction false} StopsAtUnknown(rest: Bytes)
    requires rest == [] || rest[0] > 1
    ensures ParseOps(rest) == Outcome([], rest == [])
  {
  }

  /** Updates in front of an unknown type byte are visited before that stops the iteration, and a count in
      the header that is not theirs is an error at the end. */
  lemma {:induction false} IterateStops(rep: Bytes, ops: seq<Op>, rest: Bytes)
    requires |rep| >= HEADER && AllFit(ops) && rep[HEADER..] == EncodeOps(ops) + rest
    requires rest == [] || rest[0] > 1
    ensures Replayed(rep) == Outcome(ops, rest == [] && Count(rep) == |ops|)
  {
    hide ParseOps, EncodeOps, Count;
    ParsesThenStops(ops, rest);
  }

  /** Iterating over a batch visits exactly the updates put into it, in order. */
  lemma {:induction false} IterateFinds(rep: Bytes, sequence: nat, ops: seq<Op>)
    requires Holds(rep, sequence, ops)
    ensures Replayed(rep) == Outcome(ops, true)
  {
    OpsRoundTrip(ops);
  }

  /** The handler's calls, in order; iteration stops at the first damage. */
  method Iterate(rep: Bytes) returns (calls: seq<Op>, ok: bool)
    ensures Outcome(calls, ok) == Replayed(rep)
  {
    hide ParseOp;
    calls := [];
    if |rep| < HEADER {
      return [], false;
    }
    var input := rep[HEADER..];
    var found := 0;
    while input != []
      invariant found == |calls|
      invariant ParseOps(rep[HEADER..]) == Outcome(calls + ParseOps(input).ops, ParseOps(input).ok)
      decreases |input|
    {
      found := found + 1;
      match ParseOp(input)
      case None =>
        assert calls + [] == calls;
        return calls, false;
      case Some(p) =>
        assert (calls + [p.value]) + ParseOps(p.rest).ops == calls + ([p.value] + ParseOps(p.rest).ops);
        calls := calls + [p.value];
        input := p.rest;
    }
    ok := found == Count(rep);
  }

  /** The memtable entries of a batch: one sequence number after another, cut to 56 bits
      when packed with the type. */
  function Entries(sequence: nat, ops: seq<Op>): seq<Entry> {
    seq(|ops|, i requires 0 <= i < |ops| => EntryOf((sequence + i) % (MAX_SEQUENCE + 1), ops[i]))
  }

  function EntryOf(s: SequenceNumber, op: Op): Entry {
    match op
    case Put(key, value) => Entry(IKey(key, s, Kind.Value), value)
    case Delete(key) => Entry(IKey(key, s, Deletion), [])
  }

  class WriteBatch {
    var rep: Bytes

    constructor ()
      ensures Holds(rep, 0, [])
    {
      new;
      Clear();
    }

    method Clear()
      modifies this
      ensures Holds(rep, 0, [])
    {
      rep := seq(HEADER, _ => 0);
      assert FixedValue(Fixed(0, 8)) == 0 && FixedValue(Fixed(0, 4)) == 0 by {
        FixedRoundTrip(0, 8);
        FixedRoundTrip(0, 4);
      }
      assert rep[..8] == Fixed(0, 8) && rep[8..12] == Fixed(0, 4);
    }

    method Put(key: Bytes, value: Bytes)
      requires |rep| >= HEADER && |key| < TWO_32 && |value| < TWO_32
      modifies this
      ensures forall s, ops :: Holds(old(rep), s, ops) && |ops| + 1 < TWO_31 ==>
          Holds(rep, s, ops + [Op.Put(key, value)])
    {
      hide Holds, WithCount, Count, LengthPrefixed;
      ghost var before := rep;
      rep := WithCount(rep, Count(rep) + 1);
      rep := rep + [1];
      rep := rep + LengthPrefixed(key);
      rep := rep + LengthPrefixed(value);
      OpAppended(before, rep, Op.Put(key, value));
    }

    method Delete(key: Bytes)
      requires |rep| >= HEADER && |key| < TWO_32
      modifies this
      ensures forall s, ops :: Holds(old(rep), s, ops) && |ops| + 1 < TWO_31 ==> Holds(rep, s, ops + [Op.Delete(key)])
    {
      hide Holds, WithCount, Count, LengthPrefixed;
      ghost var before := rep;
      rep := WithCount(rep, Count(rep) + 1);
      rep := rep + [0];
      rep := rep + LengthPrefixed(key);
      OpAppended(before, rep, Op.Delete(key));
    }

    /** Adds the updates of another batch behind this one's. */
    method Append(src: Bytes)
      requires |rep| >= HEADER && |src| >= HEADER
      modifies this
      ensures forall s, t, a, b {:trigger Holds(old(rep), s, a), Holds(src, t, b)} ::
        Holds(old(rep), s, a) && Holds(src, t, b) && |a| + |b| < TWO_31 ==> Holds(rep, s, a + b)
    {
      ghost var before := rep;
      rep := WithCount(rep, Count(rep) + Count(src));
      rep := rep + src[HEADER..];
      BatchAppended(before, src, rep);
    }
  }

  lemma {:induction false} BatchAppended(before: Bytes, src: Bytes, rep: Bytes)
    requires |before| >= HEADER && |src| >= HEADER
    requires rep == WithCount(before, Count(before) + Count(src)) + src[HEADER..]
    ensures forall s, t, a, b {:trigger Holds(before, s, a), Holds(src, t, b)} ::
      Holds(before, s, a) && Holds(src, t, b) && |a| + |b| < TWO_31 ==> Holds(rep, s, a + b)
  {
    hide Sequence, Count, WithCount;
    forall s, t, a, b | Holds(before, s, a) && Holds(src, t, b) && |a| + |b| < TWO_31
      ensures Holds(rep, s, a + b)
    {
      SetCountKeeps(before, Count(before) + Count(src));
      HeaderOf(WithCount(before, Count(before) + Count(src)), src[HEADER..]);
      EncodeAppends(a, b);
    }
  }
}
