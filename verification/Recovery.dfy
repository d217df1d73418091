/** Rebuilding the memtable contents from a log after a crash. */
module Recovery {
  import opened ByteStrings
  import opened InternalKeys
  import opened Reads
  import opened Coding
  import opened Updates
  import opened Log
  import opened LogReader
  import opened WriteBatch

  /** The entries put into memtables, the largest sequence number seen, and the status. */
  datatype Recovered = Recovered(entries: seq<Entry>, maxSequence: nat, ok: bool)

  function Max(a: nat, b: nat): nat {
    if a < b then b else a
  }

  function LastSequence(rep: Bytes): nat
    requires |rep| >= HEADER
  {
    (Sequence(rep) + Count(rep) - 1) % TWO_64
  }

  /** What one record, read after these drops, does to the recovery so far; false at the end
      if recovery stops there. Reports and failures count only under paranoid checks. */
  function Take(r: Bytes, dropped: bool, paranoid: bool, so: Recovered): (Recovered, bool) {
    if paranoid && dropped then (so.(ok := false), false)
    else if |r| < HEADER then (if paranoid then (so.(ok := false), false) else (so, true))
    else
      var b := Replayed(r);
      var entries := so.entries + Entries(Sequence(r), b.ops);
      if paranoid && !b.ok then (so.(entries := entries, ok := false), false)
      else (so.(entries := entries, maxSequence := Max(so.maxSequence, LastSequence(r))), true)
  }

  /** Recovery of the log from a file position on. */
  function Recover(file: Bytes, at: nat, paranoid: bool, so: Recovered): Recovered
    requires at <= |file|
    decreases |file| - at
  {
    match ReadLogical(file, at, None)
    case NoMore(_, d) => so.(ok := !(paranoid && d != []))
    case Got(r, next, d) =>
      var (s, more) := Take(r, d != [], paranoid, so);
      if more then Recover(file, next, paranoid, s) else s
  }

  method RecoverLogFile(file: Bytes, paranoid: bool, startSequence: nat) returns (r: Recovered)
    ensures r == Recover(file, 0, paranoid, Recovered([], startSequence, true))
  {
    hide ReadLogical, Replayed;
    var reader := new Reader(file);
    var entries: seq<Entry>, maxSequence, ok := [], startSequence, true;
    while true
      invariant reader.Valid() && reader.file == file && ok
      invariant Recover(file, reader.At(), paranoid, Recovered(entries, maxSequence, ok))
             == Recover(file, 0, paranoid, Recovered([], startSequence, true))
      decreases |file| - reader.At()
    {
      var before := |reader.dropped|;
      var more, record := reader.ReadRecord();
      if paranoid && |reader.dropped| > before {
        ok := false;
      }
      if !more || !ok {
        return Recovered(entries, maxSequence, ok);
      }
      if |record| < HEADER {
        if paranoid {
          return Recovered(entries, maxSequence, false);
        }
        continue;
      }
      var calls, fine := Iterate(record);
      entries := entries + Entries(Sequence(record), calls);
      if paranoid && !fine {
        return Recovered(entries, maxSequence, false);
      }
      maxSequence := Max(maxSequence, LastSequence(record));
    }
  }

  // ----- what was written comes back

  datatype Batch = Batch(rep: Bytes, sequence: nat, ops: seq<Op>)

  ghost predicate Written(batches: seq<Batch>) {
    forall i {:trigger batches[i]} :: 0 <= i < |batches| ==> Holds(batches[i].rep, batches[i].sequence, batches[i].ops)
  }

  function Reps(batches: seq<Batch>): (r: seq<Bytes>)
    ensures |r| == |batches|
  {
    seq(|batches|, i requires 0 <= i < |batches| => batches[i].rep)
  }

  function Apply(b: Batch, so: Recovered): Recovered {
    so.(entries := so.entries + Entries(b.sequence, b.ops),
    maxSequence := Max(so.maxSequence, (b.sequence + |b.ops| - 1) % TWO_64))
  }

  /** The updates of the batches, applied one batch after another. */
  function Applied(batches: seq<Batch>, so: Recovered): Recovered {
    if batches == [] then so else Applied(batches[1..], Apply(batches[0], so))
  }

  lemma {:induction false} TakesBatch(b: Batch, paranoid: bool, so: Recovered)
    requires Holds(b.rep, b.sequence, b.ops)
    ensures Take(b.rep, false, paranoid, so) == (Apply(b, so), true)
  {
    hide ParseOps, EncodeOps, Entries, Sequence, Count;
    IterateFinds(b.rep, b.sequence, b.ops);
  }

  lemma {:induction false} RecoversAll(file: Bytes, at: nat, paranoid: bool, batches: seq<Batch>, so: Recovered)
    requires Written(batches) && at <= |file| && so.ok
    requires ReadAll(file, at) == Contents(Reps(batches), [])
    ensures Recover(file, at, paranoid, so) == Applied(batches, so)
    decreases |batches|
  {
    hide ReadLogical, Take, Entries, Max, Holds;
    var l := ReadLogical(file, at, None);
    if batches == [] {
      assert l.NoMore?;
    } else {
      assert l.Got?;
      assert l.record == Reps(batches)[0] && ReadAll(file, l.next).records == Reps(batches)[1..];
      assert Reps(batches)[1..] == Reps(batches[1..]);
      TakesBatch(batches[0], paranoid, so);
      RecoversAll(file, l.next, paranoid, batches[1..], Apply(batches[0], so));
    }
  }

  /** However a crash cuts the log short, recovery succeeds and rebuilds exactly the effect
      of the commits that are wholly in the log, a prefix of the commits of that log. */
  lemma {:induction false} RecoversPrefix(batches: seq<Batch>, n: nat, paranoid: bool, start: nat)
    requires Written(batches) && n <= |LogOf(0, Reps(batches))|
    ensures exists k :: Recovers(batches, n, paranoid, start, k)
  {
    hide LogOf, ReadAll, Recover, Recovers;
    TruncatedLog(Reps(batches), n);
    var k :| 0 <= k <= |batches|
      && ReadAll(LogOf(0, Reps(batches))[..n], 0) == Contents(Reps(batches)[..k], [])
      && |LogOf(0, Reps(batches)[..k])| <= n && (k < |batches| ==> n < |LogOf(0, Reps(batches)[..k + 1])|);
    RecoversFirst(batches, n, paranoid, start, k);
  }

  /** Of the first `n` bytes of the log the first `k` commits are whole, and recovery applies just those. */
  ghost predicate Recovers(batches: seq<Batch>, n: nat, paranoid: bool, start: nat, k: nat)
    requires n <= |LogOf(0, Reps(batches))|
  {
    && k <= |batches|
    && Recover(LogOf(0, Reps(batches))[..n], 0, paranoid, Recovered([], start, true)) ==
        Applied(batches[..k], Recovered([], start, true))
    && |LogOf(0, Reps(batches[..k]))| <= n
    && (k < |batches| ==> n < |LogOf(0, Reps(batches[..k + 1]))|)
  }

  lemma {:induction false} RecoversFirst(batches: seq<Batch>, n: nat, paranoid: bool, start: nat, k: nat)
    requires Written(batches) && n <= |LogOf(0, Reps(batches))| && k <= |batches|
    requires ReadAll(LogOf(0, Reps(batches))[..n], 0) == Contents(Reps(batches)[..k], [])
    requires |LogOf(0, Reps(batches)[..k])| <= n && (k < |batches| ==> n < |LogOf(0, Reps(batches)[..k + 1])|)
    ensures Recovers(batches, n, paranoid, start, k)
  {
    hide LogOf, ReadAll, Recover;
    assert Reps(batches)[..k] == Reps(batches[..k]);
    assert k < |batches| ==> Reps(batches)[..k + 1] == Reps(batches[..k + 1]);
    RecoversAll(LogOf(0, Reps(batches))[..n], 0, paranoid, batches[..k], Recovered([], start, true));
  }

  // ----- several logs

  /** A log more: what was replayed of it is kept if that succeeded, and its status is the status. */
  function WithLog(so: Recovered, file: Bytes, paranoid: bool): Recovered {
    var r := Recover(file, 0, paranoid, Recovered([], so.maxSequence, true));
    Recovered(if r.ok then so.entries + r.entries else so.entries, r.maxSequence, r.ok)
  }

  function ReplayLogs(files: seq<Bytes>, paranoid: bool, so: Recovered): Recovered {
    if files == [] then so else WithLog(ReplayLogs(files[..|files| - 1], paranoid, so), files[|files| - 1], paranoid)
  }

  /** Every log from the recorded one on, in the order in which they were made. */
  method RecoverLogs(files: seq<Bytes>, paranoid: bool) returns (r: Recovered)
    ensures r == ReplayLogs(files, paranoid, Recovered([], 0, true))
  {
    hide Recover;
    r := Recovered([], 0, true);
    for i := 0 to |files|
      invariant r == ReplayLogs(files[..i], paranoid, Recovered([], 0, true))
    {
      assert files[..i + 1][..i] == files[..i];
      var one := RecoverLogFile(files[i], paranoid, r.maxSequence);
      r := Recovered(if one.ok then r.entries + one.entries else r.entries, one.maxSequence, one.ok);
    }
    assert files[..|files|] == files;
  }

  /** Of the first `n` bytes of a log of these commits just the first `k` commits are whole. */
  ghost predicate WholeIn(batches: seq<Batch>, n: nat, k: nat) {
    && k <= |batches| && n <= |LogOf(0, Reps(batches))| && |LogOf(0, Reps(batches[..k]))| <= n
    && (k < |batches| ==> n < |LogOf(0, Reps(batches[..k + 1]))|)
  }

  /** Commits, log after log, and where each log is cut. */
  datatype CutLog = CutLog(batches: seq<Batch>, length: nat)

  ghost predicate CutOk(l: CutLog) {
    Written(l.batches) && l.length <= |LogOf(0, Reps(l.batches))|
  }

  function FileOf(l: CutLog): Bytes
    requires l.length <= |LogOf(0, Reps(l.batches))|
  {
    LogOf(0, Reps(l.batches))[..l.length]
  }

  ghost predicate AllOk(logs: seq<CutLog>) {
    forall i :: 0 <= i < |logs| ==> CutOk(logs[i])
  }

  ghost function FilesOf(logs: seq<CutLog>): (r: seq<Bytes>)
    requires AllOk(logs)
    ensures |r| == |logs|
  {
    seq(|logs|, i requires 0 <= i < |logs| => FileOf(logs[i]))
  }

  /** The first `ks[i]` commits of each log. */
  function Firsts(logs: seq<CutLog>, ks: seq<nat>): seq<Batch>
    requires |ks| == |logs| && forall i :: 0 <= i < |ks| ==> ks[i] <= |logs[i].batches|
  {
    if logs == [] then []
    else
      var n := |logs| - 1;
      Firsts(logs[..n], ks[..n]) + logs[n].batches[..ks[n]]
  }

  ghost predicate Wholes(logs: seq<CutLog>, ks: seq<nat>) {
    |ks| == |logs| && forall i :: 0 <= i < |ks| ==> WholeIn(logs[i].batches, logs[i].length, ks[i])
  }

  /** However a crash cuts each of the logs short, recovery has the effect of the commits wholly in
      one of them, log after log. */
  ghost predicate RecoversEach(logs: seq<CutLog>, ks: seq<nat>, paranoid: bool, so: Recovered)
    requires AllOk(logs)
  {
    Wholes(logs, ks) && ReplayLogs(FilesOf(logs), paranoid, so) == Applied(Firsts(logs, ks), so)
  }

  lemma {:induction false} LogsRecover(logs: seq<CutLog>, paranoid: bool, so: Recovered) returns (ks: seq<nat>)
    requires AllOk(logs) && so.ok
    ensures RecoversEach(logs, ks, paranoid, so)
  {
    hide *;
    if logs == [] {
      ks := [];
      NoLogs(logs, paranoid, so);
    } else {
      var n := |logs| - 1;
      LastOk(logs);
      var js := LogsRecover(logs[..n], paranoid, so);
      ReachedOk(logs[..n], js, paranoid, so);
      var k := OneCut(logs[n], paranoid, ReplayLogs(FilesOf(logs[..n]), paranoid, so).maxSequence);
      OneLogMore(logs[..n], js, logs[n], k, paranoid, so);
      assert logs == logs[..n] + [logs[n]];
      ks := js + [k];
    }
  }

  lemma {:induction false} NoLogs(logs: seq<CutLog>, paranoid: bool, so: Recovered)
    requires logs == []
    ensures AllOk(logs) && RecoversEach(logs, [], paranoid, so)
  {
  }

  lemma {:induction false} LastOk(logs: seq<CutLog>)
    requires AllOk(logs) && logs != []
    ensures AllOk(logs[..|logs| - 1]) && CutOk(logs[|logs| - 1]) && AllOk(logs[..|logs| - 1] + [logs[|logs| - 1]])
  {
    hide CutOk;
    assert logs == logs[..|logs| - 1] + [logs[|logs| - 1]];
  }

  lemma {:induction false} OneCut(l: CutLog, paranoid: bool, start: nat) returns (k: nat)
    requires CutOk(l)
    ensures WholeIn(l.batches, l.length, k) && l.length <= |LogOf(0, Reps(l.batches))|
    ensures Recover(FileOf(l), 0, paranoid, Recovered([], start, true)) ==
        Applied(l.batches[..k], Recovered([], start, true))
  {
    CutIs(l);
    hide LogOf, Recover, Applied, WholeIn, Recovers, Written;
    RecoversPrefix(l.batches, l.length, paranoid, start);
    k :| Recovers(l.batches, l.length, paranoid, start, k);
    OneWhole(l.batches, l.length, paranoid, start, k);
  }

  lemma {:induction false} CutIs(l: CutLog)
    requires CutOk(l)
    ensures Written(l.batches) && l.length <= |LogOf(0, Reps(l.batches))|
  {
  }

  lemma {:induction false} ReachedOk(logs: seq<CutLog>, ks: seq<nat>, paranoid: bool, so: Recovered)
    requires AllOk(logs) && RecoversEach(logs, ks, paranoid, so)
    ensures ReplayLogs(FilesOf(logs), paranoid, so).ok == so.ok
  {
    hide ReplayLogs, Applied, Firsts;
    AppliedOk(Firsts(logs, ks), so);
  }

  lemma {:induction false} OneLogMore(logs: seq<CutLog>, ks: seq<nat>, last: CutLog, k: nat, paranoid: bool,
        so: Recovered)
    requires AllOk(logs) && AllOk(logs + [last]) && CutOk(last) && RecoversEach(logs, ks, paranoid, so) &&
      WholeIn(last.batches, last.length, k)
    requires so.ok && var mid := ReplayLogs(FilesOf(logs), paranoid, so);
      Recover(FileOf(last), 0, paranoid, Recovered([], mid.maxSequence, true)) ==
          Applied(last.batches[..k], Recovered([], mid.maxSequence, true))
    ensures RecoversEach(logs + [last], ks + [k], paranoid, so)
  {
    hide Recover, LogOf, Applied, CutOk, FileOf;
    var more, ks' := logs + [last], ks + [k];
    assert more[..|logs|] == logs && ks'[..|ks|] == ks;
    assert Wholes(more, ks') by {
      hide WholeIn;
    }
    var mid := ReplayLogs(FilesOf(logs), paranoid, so);
    assert FilesOf(more)[..|logs|] == FilesOf(logs) && FilesOf(more)[|logs|] == FileOf(last);
    assert ReplayLogs(FilesOf(more), paranoid, so) == WithLog(mid, FileOf(last), paranoid);
    assert Firsts(more, ks') == Firsts(logs, ks) + last.batches[..k];
    AppliedParts(Firsts(logs, ks), last.batches[..k], so);
    AppliedOnto(last.batches[..k], mid);
    AppliedOk(Firsts(logs, ks), so);
    AppliedOk(last.batches[..k], Recovered([], mid.maxSequence, true));
  }

  lemma {:induction false} OneWhole(batches: seq<Batch>, n: nat, paranoid: bool, start: nat, k: nat)
    requires n <= |LogOf(0, Reps(batches))| && Recovers(batches, n, paranoid, start, k)
    ensures WholeIn(batches, n, k)
    ensures Recover(LogOf(0, Reps(batches))[..n], 0, paranoid, Recovered([], start, true)) ==
        Applied(batches[..k], Recovered([], start, true))
  {
  }

  lemma {:induction false} AppliedParts(a: seq<Batch>, b: seq<Batch>, so: Recovered)
    ensures Applied(a + b, so) == Applied(b, Applied(a, so))
    decreases |a|
  {
    hide Apply;
    if a == [] {
      assert a + b == b;
    } else {
      assert (a + b)[1..] == a[1..] + b;
      AppliedParts(a[1..], b, Apply(a[0], so));
    }
  }

  lemma {:induction false} AppliedOk(a: seq<Batch>, so: Recovered)
    ensures Applied(a, so).ok == so.ok
    decreases |a|
  {
    if a != [] {
      AppliedOk(a[1..], Apply(a[0], so));
    }
  }

  lemma {:induction false} AppliedOnto(a: seq<Batch>, so: Recovered)
    ensures var r := Applied(a, Recovered([], so.maxSequence, so.ok));
      Applied(a, so) == Recovered(so.entries + r.entries, r.maxSequence, so.ok)
    decreases |a|
  {
    hide Entries, Max;
    if a != [] {
      var first := Apply(a[0], Recovered([], so.maxSequence, so.ok));
      AppliedOnto(a[1..], Apply(a[0], so));
      AppliedOnto(a[1..], first);
      var r := Applied(a[1..], Recovered([], first.maxSequence, so.ok));
      assert first.entries == Entries(a[0].sequence, a[0].ops);
      assert (so.entries + first.entries) + r.entries == so.entries + (first.entries + r.entries);
    }
  }

  // ----- a damaged log before another one

  /** Recovery reports damage exactly when the last log is damaged. */
  lemma {:induction false} OnlyLastReportsIff(files: seq<Bytes>, last: Bytes, paranoid: bool, so: Recovered)
    ensures var before := ReplayLogs(files, paranoid, so);
      ReplayLogs(files + [last], paranoid, so).ok <==>
          Recover(last, 0, paranoid, Recovered([], before.maxSequence, true)).ok
  {
    assert (files + [last])[..|files|] == files;
  }

  /** A commit, and behind it a record too short to be one: under paranoid checks recovery of that log
      alone fails, and with an empty log after it succeeds without the commit. */
  lemma {:induction false} DamageIsForgotten(b: Batch, start: nat)
    requires Written([b])
    ensures var file := LogOf(0, [b.rep] + [[]]);
      && !ReplayLogs([file], true, Recovered([], start, true)).ok
      && ReplayLogs([file] + [[]], true, Recovered([], start, true)).ok
      && ReplayLogs([file] + [[]], true, Recovered([], start, true)).entries == []
  {
    var file, so := LogOf(0, [b.rep] + [[]]), Recovered([], start, true);
    ShortRecordFails(b, start);
    EmptyLog(ReplayLogs([file], true, so));
    hide Recover, LogOf;
    assert [file][..0] == [] && ([file] + [[]])[..1] == [file];
    assert ReplayLogs([file], true, so) == WithLog(so, file, true);
  }

  lemma {:induction false} EmptyLog(so: Recovered)
    ensures WithLog(so, [], true) == so.(ok := true)
  {
    assert so.entries + [] == so.entries;
  }

  lemma {:induction false} ShortRecordFails(b: Batch, start: nat)
    requires Written([b])
    ensures !Recover(LogOf(0, [b.rep] + [[]]), 0, true, Recovered([], start, true)).ok
  {
    hide ReadLogical, LogOf, Holds, Take, Apply;
    var file, so := LogOf(0, [b.rep] + [[]]), Recovered([], start, true);
    WholeLog([b.rep] + [[]]);
    var one := ReadLogical(file, 0, None);
    FirstRead(file, 0, b.rep, [[]]);
    var two := ReadLogical(file, one.next, None);
    var none: seq<Bytes> := [];
    assert [[]] == [[]] + none;
    FirstRead(file, one.next, [], none);
    assert Holds([b][0].rep, [b][0].sequence, [b][0].ops);
    TakesBatch(b, true, so);
    ShortIsDamage(Apply(b, so));
  }

  lemma {:induction false} FirstRead(file: Bytes, at: nat, r: Bytes, rest: seq<Bytes>)
    requires at <= |file| && ReadAll(file, at) == Contents([r] + rest, [])
    ensures var l := ReadLogical(file, at, None);
      l.Got? && l.record == r && l.dropped == [] && at < l.next <= |file| && ReadAll(file, l.next) == Contents(rest, [])
  {
    hide ReadLogical;
    var l := ReadLogical(file, at, None);
    assert l.Got?;
    assert ([r] + rest)[1..] == rest && ReadAll(file, at).records[1..] == ReadAll(file, l.next).records;
  }

  lemma {:induction false} ShortIsDamage(so: Recovered)
    ensures Take([], false, true, so) == (so.(ok := false), false)
  {
  }
}
