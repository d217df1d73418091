/** Recovery from any bytes at all, with and without paranoid checks. */
module DamagedLogs {
  import opened ByteStrings
  import opened Reads
  import opened LogReader
  import opened Recovery
  import opened RecoveredReads
  import WriteBatch

  /** The record is a batch: its header is there, and it holds as many updates as that says. */
  predicate IsBatch(r: Bytes) {
    |r| >= WriteBatch.HEADER && WriteBatch.Replayed(r).ok
  }

  /** Under paranoid checks recovery of a file succeeds exactly if the reader reports nothing and every
      record is a batch. */
  lemma {:induction false} ParanoidIff(file: Bytes, at: nat, so: Recovered)
    requires at <= |file| && so.ok
    ensures Recover(file, at, true, so).ok <==>
        ReadAll(file, at).dropped == [] && forall r :: r in ReadAll(file, at).records ==> IsBatch(r)
    decreases |file| - at
  {
    hide ReadLogical, WriteBatch.Replayed, WriteBatch.Entries, Max, LastSequence;
    var l := ReadLogical(file, at, None);
    if l.Got? {
      var (s, more) := Take(l.record, l.dropped != [], true, so);
      if more {
        ParanoidIff(file, l.next, s);
      }
      assert l.record in ReadAll(file, at).records;
    }
  }

  /** The batches that records stand for: the updates of each up to its first damage. */
  function BatchesIn(records: seq<Bytes>): seq<Batch> {
    if records == [] then []
    else
      var r := records[0];
      var rest := BatchesIn(records[1..]);
      if |r| < WriteBatch.HEADER then rest
      else [Batch(r, WriteBatch.Sequence(r), WriteBatch.Replayed(r).ops)] + rest
  }

  lemma {:induction false} TolerantApplies(file: Bytes, at: nat, so: Recovered, max: nat)
    requires at <= |file| && so.ok
    ensures var r := Recover(file, at, false, so);
      r.ok && r.entries == Applied(BatchesIn(ReadAll(file, at).records), so.(maxSequence := max)).entries
    decreases |file| - at
  {
    hide ReadLogical, WriteBatch.Replayed, WriteBatch.Entries, Max, LastSequence;
    var l := ReadLogical(file, at, None);
    if l.Got? {
      var records := ReadAll(file, at).records;
      var (s, more) := Take(l.record, l.dropped != [], false, so);
      assert more && records[0] == l.record && records[1..] == ReadAll(file, l.next).records;
      if |l.record| < WriteBatch.HEADER {
        assert BatchesIn(records) == BatchesIn(records[1..]);
        TolerantApplies(file, l.next, s, max);
      } else {
        var b := Batch(l.record, WriteBatch.Sequence(l.record), WriteBatch.Replayed(l.record).ops);
        var after := Apply(b, so.(maxSequence := max));
        TolerantApplies(file, l.next, s, after.maxSequence);
        assert BatchesIn(records)[1..] == BatchesIn(records[1..]);
        assert s.(maxSequence := after.maxSequence) == after;
      }
    }
  }

  /** Without them it always succeeds, and from whatever bytes it brings back all updates in the records
      that the reader returns, up to the first damage of each. */
  lemma {:induction false} TolerantRebuilds(file: Bytes, start: nat)
    ensures var r := Recover(file, 0, false, Recovered([], start, true));
      r.ok && Rebuilt(r.entries, BatchesIn(ReadAll(file, 0).records))
  {
    hide Recover, Rebuilt, Applied, ReadAll;
    var none, batches := Recovered([], start, true), BatchesIn(ReadAll(file, 0).records);
    TolerantApplies(file, 0, none, start);
    AppliedRebuilds(batches, none);
    assert Applied(batches, none).entries[0..] == Applied(batches, none).entries;
  }
}
