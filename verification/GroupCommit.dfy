/** The writer queue: one leader logs and applies a group of batches at a time. */
module GroupCommit {
  import opened Reads
  import opened Updates

  /** A write batch: its operations and the size of its representation. */
  datatype Batch = Batch(ops: seq<Op>, bytes: nat)

  /** A waiting writer; a writer without a batch only asks for room. */
  datatype Writer = Writer(batch: Option<Batch>, sync: bool) {
    function Ops(): seq<Op> {
      if batch.Some? then batch.value.ops else []
    }

    function Bytes(): nat {
      if batch.Some? then batch.value.bytes else 0
    }
  }

  datatype Status = Ok | Failed

  /** How a write ended, whether its batch was given sequence numbers, and the log of that moment. */
  datatype Outcome = Outcome(writer: Writer, status: Status, numbered: bool, log: nat) {
    /** The writer was told that its batch is safe. */
    predicate Promised() {
      status == Ok && writer.sync && writer.batch.Some?
    }
  }

  /** The writes that have returned, in the order they returned. */
  datatype History = Start | Then(before: History, last: Outcome)

  /** An operation with the sequence number it was given. */
  datatype Version = Version(seqno: nat, op: Op)

  function Number(ops: seq<Op>, first: nat): seq<Version> {
    seq(|ops|, i requires 0 <= i < |ops| => Version(first + i, ops[i]))
  }

  /** Operations of the first `n` queued writers, in queue order. */
  function GroupOps(queue: seq<Writer>, n: nat): seq<Op>
    requires n <= |queue|
  {
    if n == 0 then [] else GroupOps(queue, n - 1) + queue[n - 1].Ops()
  }

  function GroupBytes(queue: seq<Writer>, n: nat): nat
    requires n <= |queue|
  {
    if n == 0 then 0 else GroupBytes(queue, n - 1) + queue[n - 1].Bytes()
  }

  /** A small first batch may only grow a little. */
  function MaxGroupBytes(first: nat): nat {
    if first <= 0x2_0000 then first + 0x2_0000 else 0x10_0000
  }

  /** Writer `i` may not join the group led by the front writer. */
  ghost predicate Bars(queue: seq<Writer>, i: nat)
    requires 0 < |queue| && i < |queue|
  {
    || (queue[i].sync && !queue[0].sync)
    || (queue[i].batch.Some? && GroupBytes(queue, i + 1) > MaxGroupBytes(queue[0].Bytes()))
  }

  /** The group is as long as it can be without a barred writer. */
  ghost predicate IsGroup(queue: seq<Writer>, n: nat) {
    && 1 <= n <= |queue|
    && queue[0].batch.Some?
    && (forall i :: 1 <= i < n ==> !Bars(queue, i))
    && (n < |queue| ==> Bars(queue, n))
  }

  /** A group of more than its first writer has at most a megabyte, and at most 128 kilobytes beyond a
      first batch that is no larger than that; one writer more would be over that, or is not let in. */
  ghost predicate StaysSmall(queue: seq<Writer>, n: nat)
    requires 1 <= n <= |queue|
  {
    var first := queue[0].Bytes();
    var most := if first <= 128 * 1024 then first + 128 * 1024 else 1024 * 1024;
    && (GroupBytes(queue, n) == first || GroupBytes(queue, n) <= most)
    && (n < |queue| && (queue[n].sync ==> queue[0].sync) ==> queue[n].batch.Some? && GroupBytes(queue, n + 1) > most)
  }

  method BuildBatchGroup(writers: seq<Writer>) returns (n: nat, updates: seq<Op>)
    requires writers != [] && writers[0].batch.Some?
    ensures IsGroup(writers, n) && StaysSmall(writers, n)
    ensures updates == GroupOps(writers, n)
  {
    var first := writers[0];
    updates := first.batch.value.ops;
    var size := first.batch.value.bytes;
    var maxSize := 0x10_0000;
    if size <= 0x2_0000 {
      maxSize := size + 0x2_0000;
    }
    n := 1;
    assert GroupOps(writers, 1) == GroupOps(writers, 0) + first.Ops();
    assert GroupBytes(writers, 1) == GroupBytes(writers, 0) + first.Bytes();
    while n < |writers|
      invariant 1 <= n <= |writers|
      invariant forall i :: 1 <= i < n ==> !Bars(writers, i)
      invariant updates == GroupOps(writers, n) && size == GroupBytes(writers, n)
      invariant size == first.batch.value.bytes || size <= maxSize
    {
      var w := writers[n];
      if w.sync && !first.sync {
        break;
      }
      if w.batch.Some? {
        size := size + w.batch.value.bytes;
        if size > maxSize {
          break;
        }
        updates := updates + w.batch.value.ops;
      }
      n := n + 1;
    }
  }

  /** Where the leader stands with its group of `n` writers. */
  datatype Phase =
    | Idle
    | Appending(n: nat)
    | Syncing(n: nat)
    | Inserting(n: nat, done: nat)
    | Finishing(n: nat, status: Status, syncError: bool)

  /** A log file: a record for every group, and how many of them were synced. */
  datatype LogFile = LogFile(number: nat, records: seq<seq<Version>>, synced: nat) {
    function Versions(): seq<Version> {
      Logged(records)
    }

    /** What is sure to be found after a crash. */
    function Synced(): seq<Version> {
      if synced <= |records| then Logged(records[..synced]) else []
    }

    /** Nothing lies past the synced part. */
    predicate SyncedToEnd() {
      Synced() == Versions()
    }
  }

  /** A memtable that is full and being written out as a table, and the log that goes with it. */
  datatype Full = Full(mem: seq<Version>, log: LogFile)

  /** `tables` is what memtables written out so far held. */
  datatype State = State(
    queue: seq<Writer>,
    history: History,
    lastSequence: nat,
    log: LogFile,
    mem: seq<Version>,
    older: Option<Full>,
    tables: seq<Version>,
    phase: Phase,
    bgError: bool,
    syncFailed: bool,
    snapshots: set<nat>
  )

  predicate Init(s: State) {
    s == State([], Start, 0, LogFile(0, [], 0), [], None, [], Idle, false, false, {})
  }

  datatype Step =
    | Enqueue(w: Writer)
    | RefuseRoom
    | PassEmpty
    | Lead(n: nat)
    | Append(ok: bool)
    | Sync(ok: bool)
    | Insert
    | Finish
    | Switch
    | Flush(ok: bool)
    | TakeSnapshot
    | BackgroundError

  /** The first `n` queued writers all end the same way. */
  function Ended(h: History, queue: seq<Writer>, n: nat, status: Status, log: nat): History
    requires n <= |queue|
  {
    if n == 0 then h else Then(Ended(h, queue, n - 1, status, log), Outcome(queue[n - 1], status, true, log))
  }

  /** One step of some thread; the leader works outside the mutex between `Lead` and `Finish`, so the
      other steps may come in between. A full memtable is set aside with its log, which is closed
      as it is, and written out as a table in the background. */
  ghost predicate Next(s: State, step: Step, s': State) {
    match step
    case Enqueue(w) =>
      s' == s.(queue := s.queue + [w])
    case RefuseRoom =>
      && s.phase.Idle? && s.queue != []
      && s' == s.(queue := s.queue[1..], history := Then(s.history, Outcome(s.queue[0], Failed, false, s.log.number)))
    case PassEmpty =>
      && s.phase.Idle? && s.queue != [] && s.queue[0].batch.None? && !s.bgError
      && s' == s.(queue := s.queue[1..], history := Then(s.history, Outcome(s.queue[0], Ok, false, s.log.number)))
    case Lead(n) =>
      && s.phase.Idle? && !s.bgError && IsGroup(s.queue, n)
      && s' == s.(phase := Appending(n))
    case Append(ok) =>
      && s.phase.Appending?
      && var n := s.phase.n;
      && n <= |s.queue| && s.queue != []
      && s' == if ok then
        s.(log := s.log.(records := s.log.records + [Number(GroupOps(s.queue, n), s.lastSequence + 1)]),
           phase := if s.queue[0].sync then Syncing(n) else Inserting(n, 0))
      else s.(phase := Finishing(n, Failed, false))
    case Sync(ok) =>
      && s.phase.Syncing?
      && s' == if ok then s.(log := s.log.(synced := |s.log.records|), phase := Inserting(s.phase.n, 0))
      else s.(phase := Finishing(s.phase.n, Failed, true))
    case Insert =>
      && s.phase.Inserting?
      && var n, k := s.phase.n, s.phase.done;
      && n <= |s.queue|
      && var ops := GroupOps(s.queue, n);
      && s' == if k < |ops| then
        s.(mem := s.mem + [Version(s.lastSequence + 1 + k, ops[k])], phase := Inserting(n, k + 1))
      else s.(phase := Finishing(n, Ok, false))
    case Finish =>
      && s.phase.Finishing?
      && var n := s.phase.n;
      && n <= |s.queue|
      && s' == s.(
        lastSequence := s.lastSequence + |GroupOps(s.queue, n)|,
        queue := s.queue[n..],
        history := Ended(s.history, s.queue, n, s.phase.status, s.log.number),
        bgError := s.bgError || s.phase.syncError,
        syncFailed := s.syncFailed || s.phase.syncError,
        phase := Idle)
    case Switch =>
      && s.phase.Idle? && s.queue != [] && !s.bgError && s.older.None?
      && s' == s.(older := Some(Full(s.mem, s.log)), mem := [], log := LogFile(s.log.number + 1, [], 0))
    case Flush(ok) =>
      && s.older.Some?
      && s' == if ok then s.(tables := s.tables + s.older.value.mem, older := None) else s.(bgError := true)
    case TakeSnapshot =>
      s' == s.(snapshots := s.snapshots + {s.lastSequence})
    case BackgroundError =>
      s' == s.(bgError := true)
  }

  /** How many sequence numbers the writes so far have used up. */
  function Consumed(h: History): nat {
    match h
    case Start => 0
    case Then(before, o) => Consumed(before) + if o.numbered then |o.writer.Ops()| else 0
  }

  /** Only a successful write has an effect. */
  function Effect(status: Status, ops: seq<Op>, first: nat): seq<Version> {
    if status == Ok then Number(ops, first) else []
  }

  /** What the successful writes amount to: their operations in queue order, numbered. */
  function Committed(h: History): seq<Version> {
    match h
    case Start => []
    case Then(before, o) => Committed(before) + Effect(o.status, o.writer.Ops(), Consumed(before) + 1)
  }

  function Logged(log: seq<seq<Version>>): seq<Version> {
    if log == [] then [] else Logged(log[..|log| - 1]) + log[|log| - 1]
  }

  /** The versions the leader's group is to become. */
  function GroupVersions(s: State): seq<Version> {
    if s.phase.Idle? || s.phase.n > |s.queue| then []
    else Number(GroupOps(s.queue, s.phase.n), s.lastSequence + 1)
  }

  /** The part of the leader's group that is in the memtable. */
  function Inserted(s: State): seq<Version> {
    match s.phase
    case Inserting(n, k) => if k <= |GroupVersions(s)| then GroupVersions(s)[..k] else []
    case Finishing(n, Ok, _) => GroupVersions(s)
    case _ => []
  }

  /** The part of the leader's group that is in the log. */
  function Appended(s: State): seq<Version> {
    match s.phase
    case Appending(_) => []
    case Finishing(_, Failed, false) => []
    case _ => GroupVersions(s)
  }

  ghost predicate LeadsGroup(s: State) {
    !s.phase.Idle? ==>
      && 1 <= s.phase.n <= |s.queue|
      && s.queue[0].batch.Some?
      && (forall i :: 0 <= i < s.phase.n && s.queue[i].sync ==> s.queue[0].sync)
      && (s.phase.Inserting? ==> s.phase.done <= |GroupOps(s.queue, s.phase.n)|)
      && (s.phase.Finishing? && s.phase.syncError ==> s.phase.status == Failed)
  }

  function OlderMem(s: State): seq<Version> {
    if s.older.Some? then s.older.value.mem else []
  }

  /** What was committed before the log in use began. */
  function Before(s: State): seq<Version> {
    s.tables + OlderMem(s)
  }

  /** Everything that reads can find. */
  function View(s: State): seq<Version> {
    Before(s) + s.mem
  }

  /** The leader's group once it is safe, or as safe as it was asked to be. */
  function Settled(s: State): seq<Version> {
    if s.phase.Inserting? || (s.phase.Finishing? && s.phase.status == Ok) then GroupVersions(s) else []
  }

  /** Tables and memtables hold what was committed, then what the leader has done so far; each log
      holds what its memtable does, and in its synced part nothing that failed. */
  ghost predicate Agrees(s: State) {
    && s.lastSequence == Consumed(s.history)
    && |Before(s)| <= |Committed(s.history)|
    && View(s) == Committed(s.history) + Inserted(s)
    && (!s.syncFailed ==> Before(s) + s.log.Versions() == Committed(s.history) + Appended(s))
    && (s.syncFailed ==> s.bgError && s.phase.Idle? && Committed(s.history) <= Before(s) + s.log.Versions())
    && (s.older.Some? ==> s.older.value.log.Versions() == s.older.value.mem)
    && Before(s) + s.log.Synced() <= Committed(s.history) + Settled(s)
  }

  /** A write that reports success without sequence numbers had no batch. */
  ghost predicate OnlyEmptyUnnumbered(h: History) {
    match h
    case Start => true
    case Then(before, o) =>
      OnlyEmptyUnnumbered(before) && (o.status == Ok && !o.numbered ==> o.writer.batch.None?)
  }

  /** Places in the sequence of committed versions: how far tables, the synced part of the older log,
      all before the log in use, and the synced part of that one reach. */
  datatype Marks = Marks(log: nat, older: bool, flushed: nat, olderSynced: nat, before: nat, synced: nat)

  function MarksOf(s: State): Marks {
    var flushed, before := |s.tables|, |Before(s)|;
    Marks(s.log.number, s.older.Some?, flushed,
      if s.older.Some? then flushed + |s.older.value.log.Synced()| else flushed,
      before, before + |s.log.Synced()|)
  }

  /** A batch committed between two places went into that log, and into its synced part if promised. */
  predicate InPlace(from: nat, to: nat, promised: bool, log: nat, m: Marks) {
    if log == m.log then m.before <= from && (promised ==> to <= m.synced)
    else if log + 1 == m.log && m.older then m.flushed <= from && to <= m.before && (promised ==> to <= m.olderSynced)
    else log < m.log && to <= m.flushed
  }

  ghost predicate Placed(h: History, m: Marks) {
    match h
    case Start => true
    case Then(before, o) =>
      && Placed(before, m) && o.log <= m.log
      && (o.numbered ==> InPlace(|Committed(before)|, |Committed(h)|, o.Promised(), o.log, m))
  }

  ghost predicate Durable(s: State) {
    && s.log.synced <= |s.log.records|
    && (s.older.Some? ==> s.older.value.log.synced <= |s.older.value.log.records| && s.older.value.log.number + 1 == s.log.number)
    && ((s.phase.Inserting? || (s.phase.Finishing? && s.phase.status == Ok)) && s.queue != [] && s.queue[0].sync ==>
        s.log.synced == |s.log.records|)
    && Placed(s.history, MarksOf(s))
  }

  /** No write's operations lie on both sides of sequence number `t`. */
  ghost predicate Unsplit(h: History, t: nat) {
    match h
    case Start => true
    case Then(before, o) => Unsplit(before, t) && (t <= Consumed(before) || Consumed(h) <= t)
  }

  ghost predicate Inv(s: State) {
    && LeadsGroup(s)
    && Agrees(s)
    && OnlyEmptyUnnumbered(s.history)
    && Durable(s)
    && forall t :: t in s.snapshots ==> t <= s.lastSequence && Unsplit(s.history, t)
  }

  lemma {:induction false} NumberSplit(a: seq<Op>, b: seq<Op>, first: nat)
    ensures Number(a + b, first) == Number(a, first) + Number(b, first + |a|)
  {
  }

  lemma {:induction false} EffectSplit(c: seq<Version>, status: Status, a: seq<Op>, b: seq<Op>, first: nat)
    ensures c + Effect(status, a + b, first) == c + Effect(status, a, first) + Effect(status, b, first + |a|)
  {
    NumberSplit(a, b, first);
  }

  lemma {:induction false} GroupConsumes(h: History, queue: seq<Writer>, n: nat, status: Status, log: nat)
    requires n <= |queue|
    ensures Consumed(Ended(h, queue, n, status, log)) == Consumed(h) + |GroupOps(queue, n)|
  {
    if n > 0 {
      GroupConsumes(h, queue, n - 1, status, log);
    }
  }

  lemma {:induction false} AddOutcome(h: History, o: Outcome, c: seq<Version>, first: nat, ops: seq<Op>)
    requires Committed(h) == c + Effect(o.status, ops, first)
    requires Consumed(h) + 1 == first + |ops|
    ensures Committed(Then(h, o)) == c + Effect(o.status, ops + o.writer.Ops(), first)
  {
    EffectSplit(c, o.status, ops, o.writer.Ops(), first);
  }

  /** Finishing a group adds its operations, numbered in one run, or nothing. */
  lemma {:induction false} AddGroup(h: History, queue: seq<Writer>, n: nat, status: Status, log: nat)
    requires n <= |queue|
    ensures Committed(Ended(h, queue, n, status, log)) ==
        Committed(h) + Effect(status, GroupOps(queue, n), Consumed(h) + 1)
  {
    hide Number, Effect;
    if n > 0 {
      AddGroup(h, queue, n - 1, status, log);
      GroupConsumes(h, queue, n - 1, status, log);
      AddOutcome(Ended(h, queue, n - 1, status, log), Outcome(queue[n - 1], status, true, log),
        Committed(h), Consumed(h) + 1, GroupOps(queue, n - 1));
    } else {
      NoEffect(Committed(h), status, Consumed(h) + 1);
    }
  }

  lemma {:induction false} NoEffect(c: seq<Version>, status: Status, first: nat)
    ensures c + Effect(status, [], first) == c
  {
  }

  /** The group operations do not depend on who queues up behind the group. */
  lemma {:induction false} GroupOpsPrefix(queue: seq<Writer>, more: seq<Writer>, n: nat)
    requires n <= |queue|
    ensures GroupOps(queue + more, n) == GroupOps(queue, n)
  {
    if n > 0 {
      GroupOpsPrefix(queue, more, n - 1);
    }
  }

  lemma {:induction false} LoggedGrows(log: seq<seq<Version>>, r: seq<Version>)
    ensures Logged(log + [r]) == Logged(log) + r
  {
    assert (log + [r])[..|log|] == log;
  }

  lemma {:induction false} LoggedStarts(log: seq<seq<Version>>, k: nat)
    requires k <= |log|
    ensures Logged(log[..k]) <= Logged(log)
  {
    if k < |log| {
      LoggedStarts(log[..|log| - 1], k);
      assert log[..|log| - 1][..k] == log[..k];
    } else {
      assert log[..k] == log;
    }
  }

  lemma {:induction false} SyncedStarts(log: LogFile)
    ensures log.Synced() <= log.Versions()
    ensures log.synced == |log.records| ==> log.SyncedToEnd()
  {
    if log.synced <= |log.records| {
      LoggedStarts(log.records, log.synced);
      assert log.records[..|log.records|] == log.records;
    }
  }

  /** Whatever was in place by the marks `m` is in place by `m'`. */
  ghost predicate Follows(m: Marks, m': Marks, end: nat) {
    m.log <= m'.log &&
    forall from: nat, to: nat, promised: bool, log: nat {:trigger InPlace(from, to, promised, log, m)} ::
      from <= to <= end && log <= m.log && InPlace(from, to, promised, log, m) ==> InPlace(from, to, promised, log, m')
  }

  lemma {:induction false} PlacedKept(h: History, m: Marks, m': Marks, end: nat)
    requires Placed(h, m) && Follows(m, m', end) && |Committed(h)| <= end
    ensures Placed(h, m')
  {
    hide InPlace;
    if h.Then? {
      PlacedKept(h.before, m, m', end);
    }
  }

  lemma {:induction false} GroupGrows(h: History, queue: seq<Writer>, n: nat, status: Status, log: nat, k: nat)
    requires k <= n <= |queue|
    ensures |Committed(Ended(h, queue, k, status, log))| <= |Committed(Ended(h, queue, n, status, log))|
  {
    if k < n {
      GroupGrows(h, queue, n - 1, status, log, k);
    }
  }

  /** A finished group is in the log in use: in its synced part, or nobody asked for it. */
  lemma {:induction false} GroupPlaced(h: History, queue: seq<Writer>, n: nat, status: Status, log: nat, m: Marks)
    requires n <= |queue| && Placed(h, m) && log == m.log && m.before <= |Committed(h)|
    requires status == Ok ==>
      |Committed(Ended(h, queue, n, status, log))| <= m.synced || forall i :: 0 <= i < n ==> !queue[i].sync
    ensures Placed(Ended(h, queue, n, status, log), m)
  {
    if n > 0 {
      GroupGrows(h, queue, n, status, log, n - 1);
      GroupGrows(h, queue, n - 1, status, log, 0);
      GroupPlaced(h, queue, n - 1, status, log, m);
    }
  }

  lemma {:induction false} GroupUnsplit(h: History, queue: seq<Writer>, n: nat, status: Status, log: nat, t: nat)
    requires n <= |queue| && Unsplit(h, t) && t <= Consumed(h)
    ensures Unsplit(Ended(h, queue, n, status, log), t)
  {
    if n > 0 {
      GroupUnsplit(h, queue, n - 1, status, log, t);
      GroupConsumes(h, queue, n - 1, status, log);
    }
  }

  lemma {:induction false} GroupNumbered(h: History, queue: seq<Writer>, n: nat, status: Status, log: nat)
    requires n <= |queue| && OnlyEmptyUnnumbered(h)
    ensures OnlyEmptyUnnumbered(Ended(h, queue, n, status, log))
  {
    if n > 0 {
      GroupNumbered(h, queue, n - 1, status, log);
    }
  }

  lemma {:induction false} UnsplitAtEnd(h: History, t: nat)
    requires Consumed(h) <= t
    ensures Unsplit(h, t)
  {
    if h.Then? {
      UnsplitAtEnd(h.before, t);
    }
  }

  lemma {:induction false} EnqueueKeepsInv(s: State, w: Writer, s': State)
    requires Inv(s) && Next(s, Enqueue(w), s')
    ensures Inv(s')
  {
    hide GroupOps, Number, Committed, Consumed, Logged, Placed, Unsplit, OnlyEmptyUnnumbered;
    if !s.phase.Idle? {
      GroupOpsPrefix(s.queue, [w], s.phase.n);
    }
  }

  lemma {:induction false} AppendKeepsInv(s: State, ok: bool, s': State)
    requires Inv(s) && Next(s, Append(ok), s')
    ensures Inv(s')
  {
    hide GroupOps, Number, Committed, Consumed, Logged, Placed, Unsplit, OnlyEmptyUnnumbered;
    if ok {
      var r := Number(GroupOps(s.queue, s.phase.n), s.lastSequence + 1);
      LoggedGrows(s.log.records, r);
      assert s'.log.records[..s.log.synced] == s.log.records[..s.log.synced];
      assert Before(s) + (s.log.Versions() + r) == (Before(s) + s.log.Versions()) + r;
    }
  }

  lemma {:induction false} SyncKeepsInv(s: State, ok: bool, s': State)
    requires Inv(s) && Next(s, Sync(ok), s')
    ensures Inv(s')
  {
    hide GroupOps, Number, Committed, Consumed, Logged, Placed, Unsplit, OnlyEmptyUnnumbered;
    if ok {
      SyncedStarts(s.log);
      SyncedStarts(s'.log);
      PlacedKept(s.history, MarksOf(s), MarksOf(s'), |Committed(s.history)|);
    }
  }

  /** Setting a full memtable aside with its log: what is in place there stays in place. */
  lemma {:induction false} SwitchKeepsInv(s: State, s': State)
    requires Inv(s) && Next(s, Switch, s')
    ensures Inv(s')
  {
    hide GroupOps, Number, Committed, Consumed, Placed, Unsplit, OnlyEmptyUnnumbered;
    assert Before(s) == s.tables && Before(s') == View(s) && View(s') == View(s);
    assert s'.log.Versions() == [] && s'.log.Synced() == [];
    SameStart(Before(s), s.log.Versions(), s.mem);
    PlacedKept(s.history, MarksOf(s), MarksOf(s'), |Committed(s.history)|);
  }

  lemma {:induction false} SameStart(a: seq<Version>, b: seq<Version>, c: seq<Version>)
    requires a + b == a + c
    ensures b == c
  {
    assert b == (a + b)[|a|..] && c == (a + c)[|a|..];
  }

  lemma {:induction false} FlushKeepsInv(s: State, ok: bool, s': State)
    requires Inv(s) && Next(s, Flush(ok), s')
    ensures Inv(s')
  {
    hide GroupOps, Number, Committed, Consumed, Logged, Placed, Unsplit, OnlyEmptyUnnumbered;
    if ok {
      assert Before(s') == Before(s);
      SyncedStarts(s.older.value.log);
      PlacedKept(s.history, MarksOf(s), MarksOf(s'), |Committed(s.history)|);
    }
  }

  lemma {:induction false} FinishAgrees(s: State, s': State)
    requires LeadsGroup(s) && Agrees(s) && Next(s, Finish, s')
    ensures Agrees(s')
  {
    hide GroupOps, Committed, Consumed, Logged, Unsplit, OnlyEmptyUnnumbered, Ended;
    AddGroup(s.history, s.queue, s.phase.n, s.phase.status, s.log.number);
    GroupConsumes(s.history, s.queue, s.phase.n, s.phase.status, s.log.number);
  }

  lemma {:induction false} FinishDurable(s: State, s': State)
    requires LeadsGroup(s) && Agrees(s) && Durable(s) && Next(s, Finish, s')
    ensures Durable(s')
  {
    hide GroupOps, Committed, Consumed, Logged, Placed, Unsplit, OnlyEmptyUnnumbered, Ended;
    var n, status := s.phase.n, s.phase.status;
    if status == Ok && s.queue[0].sync {
      SyncedStarts(s.log);
      AddGroup(s.history, s.queue, n, status, s.log.number);
    }
    GroupPlaced(s.history, s.queue, n, status, s.log.number, MarksOf(s));
  }

  lemma {:induction false} FinishKeepsInv(s: State, s': State)
    requires Inv(s) && Next(s, Finish, s')
    ensures Inv(s')
  {
    hide GroupOps, Committed, Consumed, Logged, Placed, Unsplit, OnlyEmptyUnnumbered, Ended;
    FinishAgrees(s, s');
    FinishDurable(s, s');
    GroupNumbered(s.history, s.queue, s.phase.n, s.phase.status, s.log.number);
    forall t | t in s.snapshots
      ensures Unsplit(s'.history, t)
    {
      GroupUnsplit(s.history, s.queue, s.phase.n, s.phase.status, s.log.number, t);
    }
  }

  lemma {:induction false} TakeOneMore(before: seq<Version>, mem: seq<Version>, c: seq<Version>, ops: seq<Op>,
        first: nat, k: nat)
    requires k < |ops| && before + mem == c + Number(ops, first)[..k]
    ensures before + (mem + [Version(first + k, ops[k])]) == c + Number(ops, first)[..k + 1]
  {
    assert Number(ops, first)[..k + 1] == Number(ops, first)[..k] + [Version(first + k, ops[k])];
    assert before + (mem + [Version(first + k, ops[k])]) == (before + mem) + [Version(first + k, ops[k])];
  }

  lemma {:induction false} InsertAgrees(s: State, s': State)
    requires LeadsGroup(s) && Agrees(s) && Next(s, Insert, s')
    ensures Agrees(s')
  {
    hide GroupOps, Committed, Consumed, Logged, Before, Number;
    var ops, k := GroupOps(s.queue, s.phase.n), s.phase.done;
    assert |Number(ops, s.lastSequence + 1)| == |ops| by {
      NumberLength(ops, s.lastSequence + 1);
    }
    assert Before(s') == Before(s) by {
      SameBefore(s, s');
    }
    if k < |ops| {
      TakeOneMore(Before(s), s.mem, Committed(s.history), ops, s.lastSequence + 1, k);
    } else {
      assert GroupVersions(s)[..k] == GroupVersions(s);
    }
  }

  lemma {:induction false} NumberLength(ops: seq<Op>, first: nat)
    ensures |Number(ops, first)| == |ops|
  {
  }

  lemma {:induction false} SameBefore(s: State, s': State)
    requires s.tables == s'.tables && s.older == s'.older
    ensures Before(s) == Before(s')
  {
  }

  lemma {:induction false} InsertKeepsInv(s: State, s': State)
    requires Inv(s) && Next(s, Insert, s')
    ensures Inv(s')
  {
    hide GroupOps, Number, Committed, Consumed, Logged, Placed, Unsplit, OnlyEmptyUnnumbered;
    InsertAgrees(s, s');
  }

  lemma {:induction false} SnapshotKeepsInv(s: State, s': State)
    requires Inv(s) && Next(s, TakeSnapshot, s')
    ensures Inv(s')
  {
    hide GroupOps, Number, Committed, Consumed, Logged, Placed, Unsplit, OnlyEmptyUnnumbered;
    UnsplitAtEnd(s.history, s.lastSequence);
  }

  lemma {:induction false} ErrorKeepsInv(s: State, s': State)
    requires Inv(s) && Next(s, BackgroundError, s')
    ensures Inv(s')
  {
    hide GroupOps, Number, Committed, Consumed, Logged, Placed, Unsplit, OnlyEmptyUnnumbered;
  }

  lemma {:induction false} LeadKeepsInv(s: State, n: nat, s': State)
    requires Inv(s) && Next(s, Lead(n), s')
    ensures Inv(s')
  {
    hide GroupOps, Number, Committed, Consumed, Logged, Placed, Unsplit, OnlyEmptyUnnumbered;
    forall i | 0 <= i < n && s.queue[i].sync
      ensures s.queue[0].sync
    {
      assert i > 0 ==> !Bars(s.queue, i);
    }
  }

  /** A write without sequence numbers changes nothing but the list of outcomes. */
  lemma {:induction false} OneUnnumbered(h: History, o: Outcome, m: Marks, t: nat)
    requires !o.numbered && (o.status == Ok ==> o.writer.batch.None?) && o.log <= m.log
    ensures Committed(Then(h, o)) == Committed(h) && Consumed(Then(h, o)) == Consumed(h)
    ensures OnlyEmptyUnnumbered(h) ==> OnlyEmptyUnnumbered(Then(h, o))
    ensures Placed(h, m) ==> Placed(Then(h, o), m)
    ensures Unsplit(h, t) ==> Unsplit(Then(h, o), t)
  {
    NoEffect(Committed(h), o.status, Consumed(h) + 1);
    assert o.status == Failed || o.writer.Ops() == [];
    assert t <= Consumed(h) || Consumed(Then(h, o)) <= t;
  }

  lemma {:induction false} PopOneKeepsInv(s: State, step: Step, s': State)
    requires Inv(s) && (step.RefuseRoom? || step.PassEmpty?) && Next(s, step, s')
    ensures Inv(s')
  {
    hide GroupOps, Number, Committed, Consumed, Logged, Placed, Unsplit, OnlyEmptyUnnumbered;
    var o := s'.history.last;
    OneUnnumbered(s.history, o, MarksOf(s), 0);
    forall t | t in s.snapshots
      ensures Unsplit(s'.history, t)
    {
      OneUnnumbered(s.history, o, MarksOf(s), t);
    }
  }

  lemma {:induction false} StepKeepsInv(s: State, step: Step, s': State)
    requires Inv(s) && Next(s, step, s')
    ensures Inv(s')
  {
    match step
    case Enqueue(w) => EnqueueKeepsInv(s, w, s');
    case Append(ok) => AppendKeepsInv(s, ok, s');
    case Sync(ok) => SyncKeepsInv(s, ok, s');
    case Insert => InsertKeepsInv(s, s');
    case Finish => FinishKeepsInv(s, s');
    case Switch => SwitchKeepsInv(s, s');
    case Flush(ok) => FlushKeepsInv(s, ok, s');
    case TakeSnapshot => SnapshotKeepsInv(s, s');
    case Lead(n) => LeadKeepsInv(s, n, s');
    case RefuseRoom => PopOneKeepsInv(s, step, s');
    case PassEmpty => PopOneKeepsInv(s, step, s');
    case BackgroundError => ErrorKeepsInv(s, s');
  }

  /** The writers that have returned, in order. */
  function Returned(h: History): seq<Writer> {
    match h
    case Start => []
    case Then(before, o) => Returned(before) + [o.writer]
  }

  lemma {:induction false} GroupReturned(h: History, queue: seq<Writer>, n: nat, status: Status, log: nat)
    requires n <= |queue|
    ensures Returned(Ended(h, queue, n, status, log)) == Returned(h) + queue[..n]
  {
    if n > 0 {
      GroupReturned(h, queue, n - 1, status, log);
      assert queue[..n] == queue[..n - 1] + [queue[n - 1]];
    }
  }

  /** Writers return in the order they queued up, each exactly once. */
  lemma {:induction false} FirstInFirstOut(s: State, step: Step, s': State)
    requires LeadsGroup(s) && Next(s, step, s')
    ensures Returned(s'.history) + s'.queue ==
      Returned(s.history) + s.queue + if step.Enqueue? then [step.w] else []
  {
    if step.Finish? {
      GroupReturned(s.history, s.queue, s.phase.n, s.phase.status, s.log.number);
      assert s.queue == s.queue[..s.phase.n] + s.queue[s.phase.n..];
    }
  }

  /** States of a run, one step apart. */
  ghost predicate IsRun(run: seq<State>, steps: seq<Step>) {
    && |run| == |steps| + 1
    && Init(run[0])
    && forall i :: 0 <= i < |steps| ==> Next(run[i], steps[i], run[i + 1])
  }

  lemma {:induction false} RunKeepsInv(run: seq<State>, steps: seq<Step>, i: nat)
    requires IsRun(run, steps) && i < |run|
    ensures Inv(run[i])
  {
    if i > 0 {
      RunKeepsInv(run, steps, i - 1);
      StepKeepsInv(run[i - 1], steps[i - 1], run[i]);
    }
  }

  lemma {:induction false} CommittedBounded(h: History, i: nat)
    requires OnlyEmptyUnnumbered(h) && i < |Committed(h)|
    ensures 0 < Committed(h)[i].seqno <= Consumed(h)
  {
    if i < |Committed(h.before)| {
      CommittedBounded(h.before, i);
    }
  }

  /** Sequence numbers strictly increase along what was committed: none is used twice. */
  lemma {:induction false} CommittedIncreases(h: History, i: nat, j: nat)
    requires OnlyEmptyUnnumbered(h) && i < j < |Committed(h)|
    ensures Committed(h)[i].seqno < Committed(h)[j].seqno
  {
    var n := |Committed(h.before)|;
    if j < n {
      CommittedIncreases(h.before, i, j);
    } else if i < n {
      CommittedBounded(h.before, i);
    }
  }

  /** No write that was given sequence numbers failed. */
  ghost predicate NoneFailed(h: History) {
    h.Then? ==> NoneFailed(h.before) && (h.last.numbered ==> h.last.status == Ok)
  }

  /** Without failures the sequence numbers run 1, 2, 3, ... without a gap. */
  lemma {:induction false} CommittedContiguous(h: History)
    requires OnlyEmptyUnnumbered(h) && NoneFailed(h)
    ensures |Committed(h)| == Consumed(h)
    ensures forall i :: 0 <= i < |Committed(h)| ==> Committed(h)[i].seqno == i + 1
  {
    if h.Then? {
      CommittedContiguous(h.before);
    }
  }

  /** History `g` is where `h` was at some earlier point. */
  ghost predicate Earlier(g: History, h: History) {
    g == h || (h.Then? && Earlier(g, h.before))
  }

  /** Each successful batch sits in the committed versions once, whole and in order:
      after what was committed before it, under consecutive sequence numbers. */
  lemma {:induction false} BatchPlaced(g: History, h: History)
    requires g.Then? && Earlier(g, h) && g.last.status == Ok
    ensures Committed(g) == Committed(g.before) + Number(g.last.writer.Ops(), Consumed(g.before) + 1)
    ensures Committed(g) <= Committed(h) && Consumed(g) <= Consumed(h)
  {
    if g != h {
      BatchPlaced(g, h.before);
    }
  }

  /** A snapshot sees all of a write's operations or none of them. */
  lemma {:induction false} SnapshotAllOrNone(g: History, h: History, t: nat)
    requires g.Then? && Earlier(g, h) && Unsplit(h, t) && OnlyEmptyUnnumbered(h)
    ensures forall v :: v in Number(g.last.writer.Ops(), Consumed(g.before) + 1) && g.last.status == Ok ==>
      (v.seqno <= t <==> Consumed(g) <= t)
  {
    if g == h {
    } else {
      SnapshotAllOrNone(g, h.before, t);
    }
  }

  /** In every run state: no snapshot taken so far splits a successful write. */
  lemma {:induction false} SnapshotsSplitNothing(s: State, g: History, t: nat)
    requires Inv(s) && t in s.snapshots && g.Then? && Earlier(g, s.history) && g.last.status == Ok
    ensures forall v :: v in Number(g.last.writer.Ops(), Consumed(g.before) + 1) ==>
        (v.seqno <= t <==> Consumed(g) <= t)
  {
    SnapshotAllOrNone(g, s.history, t);
  }


  lemma {:induction false} PlacedAt(g: History, h: History, m: Marks)
    requires g.Then? && Earlier(g, h) && Placed(h, m) && OnlyEmptyUnnumbered(h) && g.last.Promised()
    ensures InPlace(|Committed(g.before)|, |Committed(g)|, true, g.last.log, m)
  {
    hide InPlace;
    if g != h {
      PlacedAt(g, h.before, m);
    }
  }

  lemma {:induction false} ShorterStarts(a: seq<Version>, b: seq<Version>, c: seq<Version>)
    requires a <= c && b <= c && |a| <= |b|
    ensures a <= b
  {
    assert a == c[..|a|] && b == c[..|b|];
  }

  lemma {:induction false} RestOf(a: seq<Version>, b: seq<Version>, c: seq<Version>)
    requires a <= b + c && |b| <= |a|
    ensures b <= a && a[|b|..] <= c
  {
    assert b == (b + c)[..|b|] && a[..|b|] == (b + c)[..|a|][..|b|];
    assert a[|b|..] == (b + c)[..|a|][|b|..] == c[..|a| - |b|];
  }

  /** The log of a batch is in use, or closed with its memtable not written out yet, or no longer needed. */
  datatype Stage = InUse | Closed | WrittenOut

  function StageOf(s: State, log: nat): Stage {
    if log == s.log.number then InUse
    else if s.older.Some? && log == s.older.value.log.number then Closed
    else WrittenOut
  }

  /** A batch that a sync writer was told is safe, and all committed since its log began, lie in the
      synced part of that log for as long as the log is needed. */
  lemma {:induction false} SyncedWritesAreLogged(s: State, g: History)
    requires Inv(s) && g.Then? && Earlier(g, s.history) && g.last.Promised()
    ensures match StageOf(s, g.last.log)
      case InUse => Before(s) <= Committed(g.before) && Committed(g)[|Before(s)|..] <= s.log.Synced()
      case Closed => s.tables <= Committed(g.before) && Committed(g)[|s.tables|..] <= s.older.value.log.Synced()
      case WrittenOut => Committed(g) <= s.tables
  {
    hide Committed, Consumed, Placed, Unsplit, OnlyEmptyUnnumbered, LeadsGroup, Settled, Appended, Inserted,
      LogFile.Synced, LogFile.Versions, Logged;
    PlacedAt(g, s.history, MarksOf(s));
    BatchPlaced(g, s.history);
    var c, all := Committed(g), Committed(s.history);
    assert View(s) == Before(s) + s.mem;
    SyncedStarts(s.log);
    CommittedIsLogged(s);
    assert Committed(g.before) <= c;
    match StageOf(s, g.last.log)
    case InUse =>
      SyncedFirst(Before(s), s.log);
      ShorterStarts(c, Before(s) + s.log.Synced(), Before(s) + s.log.Versions());
      ShorterStarts(Before(s), Committed(g.before), Before(s) + s.log.Versions());
      RestOf(c, Before(s), s.log.Synced());
    case Closed =>
      ShorterStarts(c, Before(s), Before(s) + s.log.Versions());
      SyncedFirst(s.tables, s.older.value.log);
      SyncedStarts(s.older.value.log);
      ShorterStarts(c, s.tables + s.older.value.log.Synced(), Before(s));
      ShorterStarts(s.tables, Committed(g.before), Before(s));
      RestOf(c, s.tables, s.older.value.log.Synced());
    case WrittenOut =>
      ShorterStarts(c, s.tables, Before(s) + s.log.Versions());
  }

  lemma {:induction false} SyncedFirst(before: seq<Version>, log: LogFile)
    ensures before + log.Synced() <= before + log.Versions()
  {
    SyncedStarts(log);
  }

  lemma {:induction false} CommittedIsLogged(s: State)
    requires Agrees(s)
    ensures Committed(s.history) <= Before(s) + s.log.Versions()
  {
  }

  /** A version is sure to survive a crash: in a table, or in a synced part of a log still needed. */
  ghost predicate Sure(s: State, v: Version) {
    v in s.tables || (s.older.Some? && v in s.older.value.log.Synced()) || v in s.log.Synced()
  }

  ghost predicate AllSure(s: State, vs: seq<Version>) {
    forall v :: v in vs ==> Sure(s, v)
  }

  /** What was committed, and after it the leader's group, is numbered upwards. */
  lemma {:induction false} AllIncrease(s: State, i: nat, j: nat)
    requires Agrees(s) && OnlyEmptyUnnumbered(s.history)
    requires var all := Committed(s.history) + GroupVersions(s); i < j < |all|
    ensures var all := Committed(s.history) + GroupVersions(s); all[i].seqno < all[j].seqno
  {
    hide GroupOps, Committed, OnlyEmptyUnnumbered, Consumed;
    var n := |Committed(s.history)|;
    if j < n {
      CommittedIncreases(s.history, i, j);
    } else if i < n {
      CommittedBounded(s.history, i);
    }
  }

  /** If the older log is not synced to its end, the first version past its synced part is lost. */
  lemma {:induction false} FirstUnsynced(s: State) returns (v: Version)
    requires Inv(s) && s.older.Some? && !s.older.value.log.SyncedToEnd()
    ensures v in s.older.value.mem && !Sure(s, v)
  {
    hide GroupOps, Number, Committed, Placed, Unsplit, OnlyEmptyUnnumbered, LogFile.Synced, LogFile.Versions,
      LeadsGroup;
    var older, k := s.older.value, |s.older.value.log.Synced()|;
    SyncedStarts(older.log);
    v := older.mem[k];
    var p := |s.tables| + k;
    var all := Committed(s.history) + GroupVersions(s);
    SettledFirst(s);
    var safe := Before(s) + s.log.Synced();
    assert safe <= all && safe[p] == v;
    forall i | 0 <= i < |safe| && (i < p || |Before(s)| <= i)
      ensures safe[i] != v
    {
      assert all[i] == safe[i] && all[p] == v;
      if i < p {
        AllIncrease(s, i, p);
      } else {
        AllIncrease(s, p, i);
      }
    }
    forall i | 0 <= i < |s.tables|
      ensures s.tables[i] != v
    {
      assert safe[i] == s.tables[i];
    }
    forall i | 0 <= i < k
      ensures older.log.Synced()[i] != v
    {
      assert safe[|s.tables| + i] == older.mem[i] == older.log.Synced()[i];
    }
    forall i | 0 <= i < |s.log.Synced()|
      ensures s.log.Synced()[i] != v
    {
      assert safe[|Before(s)| + i] == s.log.Synced()[i];
    }
  }

  lemma {:induction false} SettledFirst(s: State)
    requires Agrees(s)
    ensures Before(s) + s.log.Synced() <= Committed(s.history) + GroupVersions(s)
  {
    hide GroupOps, Number, Committed;
    assert Settled(s) <= GroupVersions(s);
  }

  /** All that was committed before a batch in the log in use, which a sync writer was told is safe, is
      safe too, exactly if the log before it was synced to its end or its memtable was written out;
      for batches of earlier logs it always is. */
  lemma {:induction false} EarlierCommitsSafeIff(s: State, g: History)
    requires Inv(s) && g.Then? && Earlier(g, s.history) && g.last.Promised()
    ensures AllSure(s, Committed(g)) <==>
      !StageOf(s, g.last.log).InUse? || s.older.None? || s.older.value.log.SyncedToEnd()
  {
    hide Inv, Committed, Before, LogFile.Synced, LogFile.Versions, Earlier;
    SyncedWritesAreLogged(s, g);
    BatchPlaced(g, s.history);
    match StageOf(s, g.last.log)
    case WrittenOut =>
    case Closed =>
      SplitAt(Committed(g), s.tables, Committed(g.before));
    case InUse =>
      SplitAt(Committed(g), Before(s), Committed(g.before));
      BeforeIs(s);
      if s.older.Some? {
        OlderCovered(s);
        if !s.older.value.log.SyncedToEnd() {
          var v := FirstUnsynced(s);
          assert v in Committed(g);
        }
      }
  }

  lemma {:induction false} SplitAt(a: seq<Version>, b: seq<Version>, c: seq<Version>)
    requires b <= c <= a
    ensures a == b + a[|b|..]
  {
  }

  lemma {:induction false} BeforeIs(s: State)
    ensures Before(s) == s.tables + (if s.older.Some? then s.older.value.mem else [])
  {
  }

  lemma {:induction false} OlderCovered(s: State)
    requires Inv(s) && s.older.Some?
    ensures s.older.value.log.Versions() == s.older.value.mem
  {
  }

  // ----- a run in which an earlier commit is not safe

  lemma {:induction false} OneStepMore(run: seq<State>, steps: seq<Step>, step: Step, s': State)
    requires IsRun(run, steps) && Next(run[|run| - 1], step, s')
    ensures IsRun(run + [s'], steps + [step])
  {
    hide Next;
    var run', steps' := run + [s'], steps + [step];
    forall i | 0 <= i < |steps'|
      ensures Next(run'[i], steps'[i], run'[i + 1])
    {
      if i < |steps| {
        assert run'[i] == run[i] && run'[i + 1] == run[i + 1];
      }
    }
  }

  /** A single put, as its only writer leads it through. */
  function Led(s: State, w: Writer, op: Op): State {
    var v := Version(s.lastSequence + 1, op);
    s.(queue := [], history := Then(s.history, Outcome(w, Ok, true, s.log.number)), lastSequence := s.lastSequence + 1,
       log := LogFile(s.log.number, s.log.records + [[v]], if w.sync then |s.log.records| + 1 else s.log.synced),
           mem := s.mem + [v])
  }

  /** On the way: after `Append`, after `Sync` if there is one, after the first `Insert`. */
  function LedAt(s: State, w: Writer, op: Op, appended: bool, synced: bool, done: nat): State {
    var v := Version(s.lastSequence + 1, op);
    s.(log := LogFile(s.log.number, if appended then s.log.records + [[v]] else s.log.records,
                 if synced then |s.log.records| + 1 else s.log.synced),
       mem := if done > 0 then s.mem + [v] else s.mem,
       phase := if !appended then Appending(1) else if done == 2 then Finishing(1, Ok, false)
                else if w.sync && !synced then Syncing(1) else Inserting(1, done))
  }

  lemma {:induction false} LedToLog(s: State, w: Writer, op: Op, bytes: nat)
    requires s.phase.Idle? && s.queue == [w] && !s.bgError && w.batch == Some(Batch([op], bytes))
    ensures Next(s, Lead(1), LedAt(s, w, op, false, false, 0))
    ensures Next(LedAt(s, w, op, false, false, 0), Append(true), LedAt(s, w, op, true, false, 0))
    ensures w.sync ==> Next(LedAt(s, w, op, true, false, 0), Sync(true), LedAt(s, w, op, true, true, 0))
  {
    OneWriter(w, op, bytes, s.lastSequence + 1, s.history, s.log.number);
    hide GroupOps, Number, IsGroup;
  }

  lemma {:induction false} InsertNext(t: State, ops: seq<Op>)
    requires t.phase.Inserting? && t.phase.n <= |t.queue| && GroupOps(t.queue, t.phase.n) == ops
    ensures t.phase.done < |ops| ==> Next(t, Insert,
      t.(mem := t.mem + [Version(t.lastSequence + 1 + t.phase.done, ops[t.phase.done])],
          phase := Inserting(t.phase.n, t.phase.done + 1)))
    ensures t.phase.done == |ops| ==> Next(t, Insert, t.(phase := Finishing(t.phase.n, Ok, false)))
  {
    hide GroupOps;
  }

  lemma {:induction false} LedInserts(s: State, w: Writer, op: Op, bytes: nat)
    requires s.phase.Idle? && s.queue == [w] && !s.bgError && w.batch == Some(Batch([op], bytes))
    ensures Next(LedAt(s, w, op, true, w.sync, 0), Insert, LedAt(s, w, op, true, w.sync, 1))
    ensures Next(LedAt(s, w, op, true, w.sync, 1), Insert, LedAt(s, w, op, true, w.sync, 2))
  {
    OneWriter(w, op, bytes, s.lastSequence + 1, s.history, s.log.number);
    hide GroupOps, Number, Ended, IsGroup, Next;
    var t, u := LedAt(s, w, op, true, w.sync, 0), LedAt(s, w, op, true, w.sync, 1);
    InsertNext(t, [op]);
    assert u == t.(mem := t.mem + [Version(t.lastSequence + 1 + 0, op)], phase := Inserting(1, 1));
    InsertNext(u, [op]);
  }

  lemma {:induction false} LedFinishes(s: State, w: Writer, op: Op, bytes: nat)
    requires s.phase.Idle? && s.queue == [w] && !s.bgError && w.batch == Some(Batch([op], bytes))
    ensures Next(LedAt(s, w, op, true, w.sync, 2), Finish, Led(s, w, op))
  {
    OneWriter(w, op, bytes, s.lastSequence + 1, s.history, s.log.number);
    hide GroupOps, Number, Ended, IsGroup;
    assert s.queue[1..] == [];
    assert LedAt(s, w, op, true, w.sync, 2).phase == Finishing(1, Ok, false);
  }

  lemma {:induction false} LeadsThrough(run: seq<State>, steps: seq<Step>, s: State, w: Writer, op: Op, bytes: nat)
    returns (run': seq<State>, steps': seq<Step>)
    requires IsRun(run, steps) && run[|run| - 1] == s && s.phase.Idle? && s.queue == [w] && !s.bgError
    requires w.batch == Some(Batch([op], bytes))
    ensures IsRun(run', steps') && run'[|run'| - 1] == Led(s, w, op)
  {
    LedToLog(s, w, op, bytes);
    LedInserts(s, w, op, bytes);
    LedFinishes(s, w, op, bytes);
    hide Next, LedAt, Led;
    var s1, s2 := LedAt(s, w, op, false, false, 0), LedAt(s, w, op, true, false, 0);
    run', steps' := TwoSteps(run, steps, Lead(1), s1, Append(true), s2);
    var s3 := LedAt(s, w, op, true, w.sync, 0);
    if w.sync {
      OneStepMore(run', steps', Sync(true), s3);
      run', steps' := run' + [s3], steps' + [Sync(true)];
    }
    var s4, s5 := LedAt(s, w, op, true, w.sync, 1), LedAt(s, w, op, true, w.sync, 2);
    run', steps' := TwoSteps(run', steps', Insert, s4, Insert, s5);
    OneStepMore(run', steps', Finish, Led(s, w, op));
    run', steps' := run' + [Led(s, w, op)], steps' + [Finish];
  }

  lemma {:induction false} TwoSteps(run: seq<State>, steps: seq<Step>, a: Step, s1: State, b: Step, s2: State)
    returns (run': seq<State>, steps': seq<Step>)
    requires IsRun(run, steps) && Next(run[|run| - 1], a, s1) && Next(s1, b, s2)
    ensures IsRun(run', steps') && run'[|run'| - 1] == s2
  {
    hide Next;
    OneStepMore(run, steps, a, s1);
    run', steps' := run + [s1], steps + [a];
    OneStepMore(run', steps', b, s2);
    run', steps' := run' + [s2], steps' + [b];
  }

  lemma {:induction false} OneWriter(w: Writer, op: Op, bytes: nat, first: nat, h: History, log: nat)
    requires w.batch == Some(Batch([op], bytes))
    ensures IsGroup([w], 1) && GroupOps([w], 1) == [op] && Number([op], first) == [Version(first, op)]
    ensures Ended(h, [w], 1, Ok, log) == Then(h, Outcome(w, Ok, true, log))
  {
    assert GroupOps([w], 1) == GroupOps([w], 0) + w.Ops();
    assert Ended(h, [w], 1, Ok, log) == Then(Ended(h, [w], 0, Ok, log), Outcome(w, Ok, true, log));
  }

  const UNSYNCED := Writer(Some(Batch([Put([1], [1])], 20)), false)
  const SYNCED := Writer(Some(Batch([Put([2], [2])], 20)), true)

  /** A put that is not synced, a switch of logs, a put that is: the second writer is told that its
      batch is safe, and the put committed before it is not. */
  lemma {:induction false} SwitchLosesCommit() returns (run: seq<State>, steps: seq<Step>)
    ensures IsRun(run, steps)
    ensures var s := run[|run| - 1];
      && s.history.Then? && s.history.last == Outcome(SYNCED, Ok, true, 1) && s.history.last.Promised()
      && s.older.Some? && s.older.value.log.synced == 0
      && Version(1, Put([1], [1])) in Committed(s.history) && !Sure(s, Version(1, Put([1], [1])))
  {
    var a, b := Put([1], [1]), Put([2], [2]);
    var s0 := State([], Start, 0, LogFile(0, [], 0), [], None, [], Idle, false, false, {});
    run, steps := [s0], [];
    var s1 := s0.(queue := [UNSYNCED]);
    OneStepMore(run, steps, Enqueue(UNSYNCED), s1);
    run, steps := LeadsThrough(run + [s1], steps + [Enqueue(UNSYNCED)], s1, UNSYNCED, a, 20);
    var s2 := Led(s1, UNSYNCED, a);
    var s3 := s2.(queue := [SYNCED]);
    OneStepMore(run, steps, Enqueue(SYNCED), s3);
    var s4 := s3.(older := Some(Full(s3.mem, s3.log)), mem := [], log := LogFile(1, [], 0));
    OneStepMore(run + [s3], steps + [Enqueue(SYNCED)], Switch, s4);
    run, steps := LeadsThrough(run + [s3] + [s4], steps + [Enqueue(SYNCED)] + [Switch], s4, SYNCED, b, 20);
    var s5 := Led(s4, SYNCED, b);
    hide IsRun;
    LostIs(s5, a, b);
  }

  lemma {:induction false} OneRecord(r: seq<Version>)
    ensures Logged([r]) == r
  {
    assert [r][..0] == [] && [] + r == r;
  }

  lemma {:induction false} LostIs(s: State, a: Op, b: Op)
    requires a != b && s.tables == [] && s.older.Some? && s.older.value.log.synced == 0
    requires s.log.records == [[Version(2, b)]]
    requires s.history.Then? && s.history.before == Then(Start, Outcome(UNSYNCED, Ok, true, 0)) && UNSYNCED.Ops() == [a]
    ensures Version(1, a) in Committed(s.history) && !Sure(s, Version(1, a))
  {
    var first := s.history.before;
    assert Committed(first) == Committed(Start) + Effect(Ok, [a], 1) && Number([a], 1) == [Version(1, a)];
    assert Version(1, a) in Committed(first);
    assert Committed(first) <= Committed(s.history);
    assert s.log.Synced() <= s.log.Versions() by {
      SyncedStarts(s.log);
    }
    OneRecord([Version(2, b)]);
    assert s.older.value.log.records[..0] == [];
  }

  /** Steps only add versions newer than every snapshot, so a snapshot's view is fixed: a switch or a
      flush moves versions, in order. */
  lemma {:induction false} SnapshotViewFixed(s: State, step: Step, s': State, t: nat)
    requires Inv(s) && Next(s, step, s') && t in s.snapshots
    ensures View(s) <= View(s')
    ensures forall i :: |View(s)| <= i < |View(s')| ==> View(s')[i].seqno > t
  {
    hide Inv, View;
    if step.Insert? {
      InsertView(s, s', t);
    } else {
      SameView(s, step, s');
    }
  }

  lemma {:induction false} InsertView(s: State, s': State, t: nat)
    requires Inv(s) && Next(s, Insert, s') && t in s.snapshots
    ensures View(s) <= View(s') && forall i :: |View(s)| <= i < |View(s')| ==> View(s')[i].seqno > t
  {
    SameBefore(s, s');
    InsertedVersion(s, s');
    hide Next, Before, Agrees, Durable, Unsplit, OnlyEmptyUnnumbered, LeadsGroup;
    if s'.mem != s.mem {
      var v := s'.mem[|s.mem|];
      assert View(s') == View(s) + [v];
    }
  }

  lemma {:induction false} InsertedVersion(s: State, s': State)
    requires Next(s, Insert, s')
    ensures s'.mem == s.mem || (|s'.mem| == |s.mem| + 1
        && s'.mem == s.mem + [s'.mem[|s.mem|]] && s'.mem[|s.mem|].seqno > s.lastSequence)
  {
    hide GroupOps;
  }

  lemma {:induction false} SameView(s: State, step: Step, s': State)
    requires Next(s, step, s') && !step.Insert?
    ensures View(s') == View(s)
  {
    hide GroupOps, Number, Ended;
  }

  lemma {:induction false} RestStarts(a: seq<Version>, b: seq<Version>, c: seq<Version>)
    requires a + b <= a + c
    ensures b <= c
  {
    assert b == (a + b)[|a|..] && c == (a + c)[|a|..];
  }

  /** Each log always holds what its memtable holds, version for version; with the tables before them
      the memtables hold what was committed. */
  lemma {:induction false} LogCoversMemTable(s: State)
    requires Inv(s)
    ensures s.mem <= s.log.Versions() && (s.older.Some? ==> s.older.value.mem == s.older.value.log.Versions())
    ensures s.phase.Idle? ==> View(s) == Committed(s.history) && (!s.syncFailed ==> s.mem == s.log.Versions())
  {
    hide GroupOps, Number, Committed, Consumed, Logged, Placed, Unsplit, OnlyEmptyUnnumbered, Before;
    RestStarts(Before(s), s.mem, s.log.Versions());
    assert Committed(s.history) + [] == Committed(s.history);
    if s.phase.Idle? && !s.syncFailed {
      SameStart(Before(s), s.mem, s.log.Versions());
    }
  }
}
