/** What recovery brings back, update by update, and what reads then find. */
module RecoveredReads {
  import opened ByteStrings
  import opened InternalKeys
  import opened Reads
  import opened Coding
  import opened Updates
  import opened Recovery
  import WriteBatch

  /** How many updates the batches hold together. */
  function Total(batches: seq<Batch>): nat {
    if batches == [] then 0 else |batches[0].ops| + Total(batches[1..])
  }

  /** There is a `j`th update in the `i`th batch. */
  predicate IsPlace(batches: seq<Batch>, i: nat, j: nat) {
    i < |batches| && j < |batches[i].ops|
  }

  /** The entry is this update under this number: a put leaves its value, a deletion leaves a mark. */
  predicate IsUpdate(e: Entry, op: Op, number: nat) {
    && e.key.user == op.key
    && e.key.seqno == number % (MAX_SEQUENCE + 1)
    && match op
       case Put(_, value) => e.key.kind.Value? && e.value == value
       case Delete(_) => e.key.kind.Deletion? && e.value == []
  }

  /** The entry for the `j`th update of the `i`th batch comes after those of the batches before it, and
      carries the batch's sequence number plus its place in the batch. */
  ghost predicate EntryStands(entries: seq<Entry>, batches: seq<Batch>, i: nat, j: nat)
    requires IsPlace(batches, i, j)
  {
    var at := Total(batches[..i]) + j;
    at < |entries| && IsUpdate(entries[at], batches[i].ops[j], batches[i].sequence + j)
  }

  /** The entries are the updates of the batches, one for one and in order. */
  ghost predicate Rebuilt(entries: seq<Entry>, batches: seq<Batch>) {
    && |entries| == Total(batches)
    && forall i: nat, j: nat :: IsPlace(batches, i, j) ==> EntryStands(entries, batches, i, j)
  }

  lemma {:induction false} BatchRebuilds(b: Batch, so: Recovered)
    ensures var r := Apply(b, so).entries;
      && |r| == |so.entries| + |b.ops| && r[..|so.entries|] == so.entries
      && forall j :: 0 <= j < |b.ops| ==> IsUpdate(r[|so.entries| + j], b.ops[j], b.sequence + j)
  {
  }

  /** Applying batches adds one entry for each of their updates behind what was there. */
  lemma {:induction false} AppliedRebuilds(batches: seq<Batch>, so: Recovered)
    ensures var r := Applied(batches, so).entries;
      |r| >= |so.entries| && r[..|so.entries|] == so.entries && Rebuilt(r[|so.entries|..], batches)
    decreases |batches|
  {
    hide IsUpdate, Apply;
    if batches != [] {
      var b, rest := batches[0], batches[1..];
      var mid := Apply(b, so);
      var r, n := Applied(batches, so).entries, |so.entries|;
      BatchRebuilds(b, so);
      AppliedRebuilds(rest, mid);
      assert r[..n] == r[..n + |b.ops|][..n];
      forall i: nat, j: nat | IsPlace(batches, i, j)
        ensures EntryStands(r[n..], batches, i, j)
      {
        if i == 0 {
          assert r[n + j] == r[..n + |b.ops|][n + j] == mid.entries[n + j];
        } else {
          assert IsPlace(rest, i - 1, j) && EntryStands(r[n + |b.ops|..], rest, i - 1, j);
          assert batches[..i][1..] == rest[..i - 1];
        }
      }
    }
  }

  // ----- reads

  /** Each batch is numbered behind the one before it, within the range of sequence numbers. */
  ghost predicate Ascends(batches: seq<Batch>) {
    && (forall i, k :: 0 <= i < k < |batches| ==> batches[i].sequence + |batches[i].ops| <= batches[k].sequence)
    && (forall i :: 0 <= i < |batches| ==> batches[i].sequence + |batches[i].ops| <= MAX_SEQUENCE + 1)
  }

  /** The `j`th update of the `i`th batch is of this user key, and its number is at most `t`. */
  predicate Concerns(batches: seq<Batch>, i: nat, j: nat, user: Bytes, t: SequenceNumber) {
    IsPlace(batches, i, j) && batches[i].ops[j].key == user && batches[i].sequence + j <= t
  }

  /** ... and no later update is. */
  ghost predicate LastConcerns(batches: seq<Batch>, i: nat, j: nat, user: Bytes, t: SequenceNumber) {
    && Concerns(batches, i, j, user, t)
    && forall p: nat, q: nat :: Concerns(batches, p, q, user, t) ==> p < i || (p == i && q <= j)
  }

  /** Every entry stands for an update. */
  lemma {:induction false} PlaceOf(batches: seq<Batch>, at: nat) returns (i: nat, j: nat)
    requires at < Total(batches)
    ensures IsPlace(batches, i, j) && Total(batches[..i]) + j == at
    decreases |batches|
  {
    var n := |batches[0].ops|;
    if at < n {
      i, j := 0, at;
    } else {
      i, j := PlaceOf(batches[1..], at - n);
      assert batches[..i + 1][1..] == batches[1..][..i];
      i := i + 1;
    }
  }

  /** Later updates have larger numbers. */
  lemma {:induction false} NumbersAscend(batches: seq<Batch>, i: nat, j: nat, p: nat, q: nat)
    requires Ascends(batches) && IsPlace(batches, i, j) && IsPlace(batches, p, q)
    ensures batches[i].sequence + j < batches[p].sequence + q <==> i < p || (i == p && j < q)
    ensures batches[i].sequence + j <= MAX_SEQUENCE
  {
  }

  lemma {:induction false} EntryNumber(entries: seq<Entry>, batches: seq<Batch>, i: nat, j: nat)
    requires Rebuilt(entries, batches) && Ascends(batches) && IsPlace(batches, i, j)
    ensures var at := Total(batches[..i]) + j;
      && at < |entries| && IsUpdate(entries[at], batches[i].ops[j], batches[i].sequence + j)
      && entries[at].key.seqno == batches[i].sequence + j
  {
    NumbersAscend(batches, i, j, i, j);
    assert EntryStands(entries, batches, i, j);
  }

  lemma {:induction false} RebuiltUnique(entries: seq<Entry>, batches: seq<Batch>)
    requires Rebuilt(entries, batches) && Ascends(batches)
    ensures UniqueKeys(Contents(entries))
  {
    hide Rebuilt, Ascends, IsUpdate, Total;
    forall d, e | d in Contents(entries) && e in Contents(entries) && d.key == e.key
      ensures d == e
    {
      var i, j := StandsFor(entries, batches, d);
      var p, q := StandsFor(entries, batches, e);
      NumbersAscend(batches, i, j, p, q);
      NumbersAscend(batches, p, q, i, j);
    }
  }

  lemma {:induction false} StandsFor(entries: seq<Entry>, batches: seq<Batch>, e: Entry) returns (i: nat, j: nat)
    requires Rebuilt(entries, batches) && Ascends(batches) && e in Contents(entries)
    ensures IsPlace(batches, i, j) && Total(batches[..i]) + j < |entries|
    ensures e == entries[Total(batches[..i]) + j]
    ensures e.key.user == batches[i].ops[j].key && e.key.seqno == batches[i].sequence + j
  {
    hide Ascends, Total;
    var at :| 0 <= at < |entries| && entries[at] == e;
    i, j := PlaceOf(batches, at);
    EntryNumber(entries, batches, i, j);
  }

  /** A read at any sequence number finds the last update of the user key up to it: the value that it
      put, or nothing if it was a deletion. */
  lemma {:induction false} ReadsLastUpdate(entries: seq<Entry>, batches: seq<Batch>, i: nat, j: nat, user: Bytes,
        t: SequenceNumber)
    requires Rebuilt(entries, batches) && Ascends(batches) && LastConcerns(batches, i, j, user, t)
    ensures Read(Contents(entries), user, t) ==
        match batches[i].ops[j]
        case Put(_, value) => Some(value)
        case Delete(_) => None
  {
    hide Rebuilt, Ascends, Total, Read, UniqueKeys;
    EntryNumber(entries, batches, i, j);
    var e := entries[Total(batches[..i]) + j];
    assert e in Contents(entries) && VisibleTo(e, user, t);
    forall d | d in Contents(entries) && VisibleTo(d, user, t)
      ensures Tag(d.key) <= Tag(e.key)
    {
      var p, q := StandsFor(entries, batches, d);
      assert Concerns(batches, p, q, user, t);
      NumbersAscend(batches, i, j, p, q);
      assert d.key.seqno <= e.key.seqno;
      if p == i && q == j {
        assert d == e;
      } else {
        NumbersAscend(batches, p, q, i, j);
      }
    }
    assert Newest(Contents(entries), user, t, e);
    RebuiltUnique(entries, batches);
    ReadNewest(Contents(entries), user, t, e);
  }

  lemma {:induction false} NewestConcerns(entries: seq<Entry>, batches: seq<Batch>, user: Bytes, t: SequenceNumber,
        e: Entry)
    requires Rebuilt(entries, batches) && Ascends(batches) && Newest(Contents(entries), user, t, e)
    ensures exists i: nat, j: nat :: Concerns(batches, i, j, user, t)
  {
    hide Rebuilt, Ascends, Total;
    var i, j := StandsFor(entries, batches, e);
    assert Concerns(batches, i, j, user, t);
  }

  /** A user key without an update up to that sequence number reads as absent. */
  lemma {:induction false} ReadsNothing(entries: seq<Entry>, batches: seq<Batch>, user: Bytes, t: SequenceNumber)
    requires Rebuilt(entries, batches) && Ascends(batches)
    requires forall i: nat, j: nat :: !Concerns(batches, i, j, user, t)
    ensures Read(Contents(entries), user, t) == None
  {
    hide Rebuilt, Ascends, Newest, Concerns;
    if e :| Newest(Contents(entries), user, t, e) {
      NewestConcerns(entries, batches, user, t, e);
    }
  }

  /** What reads find is what the updates say, at every sequence number. */
  ghost predicate ReadsAsWritten(entries: seq<Entry>, batches: seq<Batch>) {
    forall user: Bytes, t: SequenceNumber :: ReadsLast(entries, batches, user, t)
  }

  ghost predicate ReadsLast(entries: seq<Entry>, batches: seq<Batch>, user: Bytes, t: SequenceNumber) {
    && (forall i: nat, j: nat :: LastConcerns(batches, i, j, user, t) ==>
          Read(Contents(entries), user, t) ==
            match batches[i].ops[j]
            case Put(_, value) => Some(value)
            case Delete(_) => None)
    && ((forall i: nat, j: nat :: !Concerns(batches, i, j, user, t)) ==> Read(Contents(entries), user, t) == None)
  }

  lemma {:induction false} RebuiltReads(entries: seq<Entry>, batches: seq<Batch>)
    requires Rebuilt(entries, batches) && Ascends(batches)
    ensures ReadsAsWritten(entries, batches)
  {
    hide Rebuilt, Ascends, Read;
    forall user: Bytes, t: SequenceNumber
      ensures ReadsLast(entries, batches, user, t)
    {
      forall i: nat, j: nat | LastConcerns(batches, i, j, user, t)
        ensures Read(Contents(entries), user, t) ==
            match batches[i].ops[j]
            case Put(_, value) => Some(value)
            case Delete(_) => None
      {
        ReadsLastUpdate(entries, batches, i, j, user, t);
      }
      if forall i: nat, j: nat :: !Concerns(batches, i, j, user, t) {
        ReadsNothing(entries, batches, user, t);
      }
    }
  }

  // ----- the sequence number to go on from

  /** Recovery goes on behind the last number of the batches, or from `start` if that is later. */
  predicate GoesOnBehind(batches: seq<Batch>, start: nat, maxSequence: nat) {
    if batches == [] then maxSequence == start
    else
      var b := batches[|batches| - 1];
      var last := b.sequence + |b.ops| - 1;
      maxSequence == if start < last then last else start
  }

  ghost predicate FromOne(batches: seq<Batch>) {
    forall i :: 0 <= i < |batches| ==> batches[i].sequence >= 1
  }

  lemma {:induction false} AppliedGoesOn(batches: seq<Batch>, so: Recovered)
    requires Ascends(batches) && FromOne(batches)
    ensures GoesOnBehind(batches, so.maxSequence, Applied(batches, so).maxSequence)
    decreases |batches|
  {
    hide WriteBatch.Entries;
    if batches == [] {
    } else if |batches| == 1 {
      assert Applied(batches[1..], Apply(batches[0], so)) == Apply(batches[0], so);
    } else {
      assert batches[1..][|batches| - 2] == batches[|batches| - 1];
      AppliedGoesOn(batches[1..], Apply(batches[0], so));
      assert batches[0].sequence + |batches[0].ops| <= batches[|batches| - 1].sequence;
    }
  }

  // ----- logs

  /** The updates of the batches are back, with their reads and the number to go on from. */
  ghost predicate BringsBack(r: Recovered, batches: seq<Batch>, start: nat) {
    && r.ok && Rebuilt(r.entries, batches)
    && (Ascends(batches) ==> ReadsAsWritten(r.entries, batches))
    && (Ascends(batches) && FromOne(batches) ==> GoesOnBehind(batches, start, r.maxSequence))
  }

  lemma {:induction false} AppliedBringsBack(batches: seq<Batch>, start: nat)
    ensures BringsBack(Applied(batches, Recovered([], start, true)), batches, start)
  {
    hide Applied, Rebuilt, Ascends, FromOne, GoesOnBehind, ReadsAsWritten;
    var none := Recovered([], start, true);
    var r := Applied(batches, none);
    AppliedRebuilds(batches, none);
    AppliedOk(batches, none);
    assert r.entries[0..] == r.entries;
    if Ascends(batches) {
      RebuiltReads(r.entries, batches);
      if FromOne(batches) {
        AppliedGoesOn(batches, none);
      }
    }
  }

  /** A log cut short anywhere: recovery succeeds and brings back the batches that are wholly in it. */
  lemma {:induction false} LogBringsBack(l: CutLog, paranoid: bool, start: nat) returns (k: nat)
    requires CutOk(l)
    ensures WholeIn(l.batches, l.length, k)
    ensures BringsBack(Recover(FileOf(l), 0, paranoid, Recovered([], start, true)), l.batches[..k], start)
  {
    hide Recover, Applied, FileOf, BringsBack;
    k := OneCut(l, paranoid, start);
    AppliedBringsBack(l.batches[..k], start);
  }

  /** Logs cut short anywhere: recovery succeeds and brings back the batches that are wholly in one of
      them, log after log. */
  lemma {:induction false} LogsBringBack(logs: seq<CutLog>, paranoid: bool) returns (ks: seq<nat>)
    requires AllOk(logs)
    ensures Wholes(logs, ks)
    ensures BringsBack(ReplayLogs(FilesOf(logs), paranoid, Recovered([], 0, true)), Firsts(logs, ks), 0)
  {
    hide ReplayLogs, Applied, AllOk, BringsBack;
    ks := LogsRecover(logs, paranoid, Recovered([], 0, true));
    AppliedBringsBack(Firsts(logs, ks), 0);
  }
}
