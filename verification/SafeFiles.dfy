/** Which table files may be deleted, and when: versions and their references, outputs not yet
    installed, manifest writes in progress, background errors, and crashes. */
module SafeFiles {
  import opened Reads

  /** What an edit does to the set of table files of a version. A file moved between levels is
      both deleted and added. */
  datatype Edit = Edit(deleted: set<nat>, added: set<nat>)

  function Changed(files: set<nat>, e: Edit): set<nat> {
    files - e.deleted + e.added
  }

  /** A flush: building a table from a version it holds, or waiting for the manifest. */
  datatype Flush = Building(number: nat, base: nat) | FlushLogging(e: Edit)

  /** A compaction holds its input version: it merges files into outputs of its own and then waits
      for the manifest, or it moves one file and only does the latter. */
  datatype Compaction =
    | Running(input: nat, deleted: set<nat>, outputs: set<nat>)
    | Logging(input: nat, deleted: set<nat>, outputs: set<nat>)
    | Moving(input: nat, n: nat)

  datatype State = State(
    /** The next file number. */
    next: nat,
    /** The table files that exist. */
    disk: set<nat>,
    pending: set<nat>,
    /** The versions in the list, by identity: their files, and their reference counts. */
    files: map<nat, set<nat>>,
    refs: map<nat, nat>,
    nextId: nat,
    current: nat,
    /** References held by readers. */
    held: multiset<nat>,
    error: bool,
    /** The file sets recovery may come to from the manifest as it was before any write in progress. */
    manifest: set<set<nat>>,
    flush: Option<Flush>,
    compaction: Option<Compaction>)

  /** The atomic steps: what happens between taking the mutex and releasing it, and the creation
      of a table file while it is released. One background thread takes all but the first three. */
  datatype Step =
    | Acquire
    | Drop(v: nat)
    | NewLog
    | StartFlush
    | WriteTable(n: nat)
    | EndBuild(ok: bool, empty: bool, removed: bool)
    | EndFlush(ok: bool)
    | StartCompaction(inputs: set<nat>)
    | StartMove(n: nat)
    | OpenOutput
    | EndWork(ok: bool)
    | EndCompaction(ok: bool)
    | Reopen(outcome: set<nat>, next: nat, recovered: set<nat>, after: nat)

  // ----- references

  function Ref(s: State, v: nat): State {
    s.(refs := s.refs[v := (if v in s.refs then s.refs[v] else 0) + 1])
  }

  /** The last reference takes the version out of the list. */
  function Unref(s: State, v: nat): State {
    if v in s.refs && s.refs[v] > 1 then s.(refs := s.refs[v := s.refs[v] - 1])
    else s.(refs := s.refs - {v}, files := s.files - {v})
  }

  function FilesOf(s: State, v: nat): set<nat> {
    if v in s.files then s.files[v] else {}
  }

  /** Everything that refers to a version: readers, the list itself, the flush, the compaction. */
  ghost function References(s: State): multiset<nat> {
    s.held + multiset{s.current} + FlushRefs(s.flush) + CompactionRefs(s.compaction)
  }

  ghost function FlushRefs(flush: Option<Flush>): multiset<nat> {
    if flush.Some? && flush.value.Building? then multiset{flush.value.base} else multiset{}
  }

  ghost function CompactionRefs(compaction: Option<Compaction>): multiset<nat> {
    if compaction.Some? then multiset{compaction.value.input} else multiset{}
  }

  /** The new version becomes current. */
  function Install(s: State, e: Edit): State {
    var v := Changed(FilesOf(s, s.current), e);
    var s' := Unref(s, s.current);
    s'.(files := s'.files[s.nextId := v], refs := s'.refs[s.nextId := 1], current := s.nextId, nextId := s.nextId + 1)
  }

  ghost function Named(s: State): set<nat> {
    set v, n | v in s.files && n in s.files[v] :: n
  }

  /** Deletes every table that is neither pending nor named by a version, unless there was an error. */
  ghost function Collect(s: State): State {
    if s.error then s else s.(disk := s.disk * (s.pending + Named(s)))
  }

  // ----- the manifest

  ghost function After(outcomes: set<set<nat>>, e: Edit): set<set<nat>> {
    set o | o in outcomes :: Changed(o, e)
  }

  function EditOf(c: Compaction): Option<Edit> {
    match c
    case Running(_, _, _) => None
    case Logging(_, deleted, outputs) => Some(Edit(deleted, outputs))
    case Moving(_, n) => Some(Edit({n}, {n}))
  }

  function OutputsOf(c: Compaction): set<nat> {
    match c
    case Running(_, _, outputs) => outputs
    case Logging(_, _, outputs) => outputs
    case Moving(_, _) => {}
  }

  /** The edit whose record may or may not be in the manifest already. */
  function BeingLogged(s: State): Option<Edit> {
    if s.flush.Some? && s.flush.value.FlushLogging? then Some(s.flush.value.e)
    else if s.compaction.Some? then EditOf(s.compaction.value)
    else None
  }

  /** The file sets recovery may come to after a crash now. */
  ghost function Outcomes(s: State): set<set<nat>> {
    match BeingLogged(s)
    case None => s.manifest
    case Some(e) => s.manifest + After(s.manifest, e)
  }

  /** The manifest write ends: installed, or an error that leaves both outcomes open. */
  ghost function Logged(s: State, e: Edit, ok: bool): State {
    if ok then Install(s, e).(manifest := After(s.manifest, e))
    else s.(manifest := s.manifest + After(s.manifest, e), error := true)
  }

  // ----- steps

  ghost predicate Enabled(s: State, step: Step) {
    match step
    case Acquire => true
    case Drop(v) => v in s.held
    case NewLog => true
    case StartFlush => s.flush.None? && (if s.compaction.Some? then s.compaction.value.Running? else !s.error)
    case WriteTable(n) =>
      (s.flush.Some? && s.flush.value.Building? && n == s.flush.value.number)
      || (s.flush.None? && s.compaction.Some? && s.compaction.value.Running? && n in s.compaction.value.outputs)
    case EndBuild(ok, empty, removed) =>
      s.flush.Some? && s.flush.value.Building? && (ok && !empty ==> s.flush.value.number in s.disk)
    case EndFlush(ok) => s.flush.Some? && s.flush.value.FlushLogging?
    case StartCompaction(inputs) => s.flush.None? && s.compaction.None? && !s.error && s.current in s.files &&
        inputs <= s.files[s.current]
    case StartMove(n) => s.flush.None? && s.compaction.None? && !s.error && s.current in s.files &&
        n in s.files[s.current]
    case OpenOutput => s.flush.None? && s.compaction.Some? && s.compaction.value.Running?
    case EndWork(ok) =>
      s.flush.None? && s.compaction.Some? && s.compaction.value.Running? &&
          (ok ==> s.compaction.value.outputs <= s.disk)
    case EndCompaction(ok) => s.flush.None? && s.compaction.Some? && !s.compaction.value.Running?
    case Reopen(outcome, next, recovered, after) =>
      && outcome in Outcomes(s) && (forall n :: n in outcome ==> n < next)
      && next <= after && (forall n :: n in recovered ==> next <= n < after)
  }

  /** The work on a compaction is over: outputs are no longer pending, the input version is
      released, and obsolete files are deleted, except after a mere move. */
  ghost function CleanUp(s: State, c: Compaction): State {
    var s' := Unref(s.(pending := s.pending - OutputsOf(c), compaction := None), c.input);
    if c.Moving? then s' else Collect(s')
  }

  /** The table of a flush is built, or not: an empty one is removed, one that failed may be. */
  ghost function Built(s: State, ok: bool, empty: bool, removed: bool): State
    requires s.flush.Some? && s.flush.value.Building?
  {
    var n := s.flush.value.number;
    s.(pending := s.pending - {n}, disk := if (if ok then empty else removed) then s.disk - {n} else s.disk,
    flush := if ok then Some(FlushLogging(Edit({}, if empty then {} else {n}))) else None, error := s.error || !ok)
  }

  /** A new process: the version recovered, and an edit with the tables made of the log. */
  ghost function Reopened(s: State, outcome: set<nat>, recovered: set<nat>, after: nat): State {
    State(after, s.disk + recovered, {}, map[0 := outcome], map[0 := 1], 1, 0, multiset{}, false, {outcome},
          Some(FlushLogging(Edit({}, recovered))), None)
  }

  /** The reference counts are these references, and versions without any are not in the list. */
  ghost predicate Match(s: State, m: multiset<nat>) {
    && s.files.Keys == s.refs.Keys && (forall v :: v in m <==> v in s.refs)
    && (forall v :: v in s.refs ==> s.refs[v] == m[v] && v < s.nextId)
  }

  ghost predicate Counted(s: State) {
    Match(s, References(s))
  }

  ghost function Apply(s: State, step: Step): State
    requires Enabled(s, step)
  {
    match step
    case Acquire => Ref(s.(held := s.held + multiset{s.current}), s.current)
    case Drop(v) => Unref(s.(held := s.held - multiset{v}), v)
    case NewLog => s.(next := s.next + 1)
    case StartFlush =>
      Ref(s.(next := s.next + 1, pending := s.pending + {s.next}, flush := Some(Building(s.next, s.current))),
          s.current)
    case WriteTable(n) => s.(disk := s.disk + {n})
    case EndBuild(ok, empty, removed) => Unref(Built(s, ok, empty, removed), s.flush.value.base)
    case EndFlush(ok) =>
      var s' := Logged(s.(flush := None), s.flush.value.e, ok);
      if ok then Collect(s') else s'
    case StartCompaction(inputs) => Ref(s.(compaction := Some(Running(s.current, inputs, {}))), s.current)
    case StartMove(n) => Ref(s.(compaction := Some(Moving(s.current, n))), s.current)
    case OpenOutput =>
      var c := s.compaction.value;
      s.(next := s.next + 1, pending := s.pending + {s.next},
          compaction := Some(Running(c.input, c.deleted, c.outputs + {s.next})))
    case EndWork(ok) =>
      var c := s.compaction.value;
      if ok then s.(compaction := Some(Logging(c.input, c.deleted, c.outputs))) else CleanUp(s.(error := true), c)
    case EndCompaction(ok) =>
      var c := s.compaction.value;
      CleanUp(Logged(s, EditOf(c).value, ok), c)
    case Reopen(outcome, _, recovered, after) => Reopened(s, outcome, recovered, after)
  }

  // ----- what holds in every state

  ghost predicate Below(ns: set<nat>, next: nat) {
    forall n :: n in ns ==> n < next
  }

  /** Every version in the list, and every outcome of recovery, has its files. */
  ghost predicate OnDisk(s: State) {
    && (forall v :: v in s.files ==> s.files[v] <= s.disk && Below(s.files[v], s.next))
    && (forall o :: o in s.manifest ==> o <= s.disk && Below(o, s.next))
    && (BeingLogged(s).Some? ==> BeingLogged(s).value.added <= s.disk && Below(BeingLogged(s).value.added, s.next))
  }

  /** Files being made are pending, and not yet part of anything. */
  ghost predicate PendingOk(s: State) {
    && s.pending == (if s.flush.Some? && s.flush.value.Building? then {s.flush.value.number} else {})
                  + (if s.compaction.Some? then OutputsOf(s.compaction.value) else {})
    && (s.flush.Some? && s.flush.value.Building? && s.compaction.Some? ==>
        s.flush.value.number !in OutputsOf(s.compaction.value))
    && (s.flush.Some? && s.flush.value.FlushLogging? ==> s.flush.value.e.added !! s.pending)
    && Below(s.pending, s.next)
    && (forall n, v :: n in s.pending && v in s.files ==> n !in s.files[v])
    && (forall n, o :: n in s.pending && o in s.manifest ==> n !in o)
  }

  ghost predicate FilesOk(s: State) {
    && s.current in s.files && OnDisk(s) && PendingOk(s)
    && (!s.error ==> s.manifest == {s.files[s.current]})
    && (s.flush.Some? && s.compaction.Some? ==> s.compaction.value.Running?)
  }

  ghost predicate Inv(s: State) {
    Counted(s) && FilesOk(s)
  }

  // ----- references stay counted

  lemma {:induction false} RefMatches(s: State, m: multiset<nat>, v: nat)
    requires Match(s, m) && v in m
    ensures Match(Ref(s, v), m + multiset{v})
  {
  }

  lemma {:induction false} UnrefMatches(s: State, m: multiset<nat>, v: nat)
    requires Match(s, m) && v in m
    ensures v in s.refs && s.refs[v] > 0 && Match(Unref(s, v), m - multiset{v})
    ensures forall w :: w in Unref(s, v).files ==> w in s.files && Unref(s, v).files[w] == s.files[w]
  {
  }

  lemma {:induction false} InstallMatches(s: State, m: multiset<nat>, e: Edit)
    requires Match(s, m) && s.current in m
    ensures s.current in s.refs && s.refs[s.current] > 0 && s.current in s.files
    ensures Match(Install(s, e), m - multiset{s.current} + multiset{s.nextId})
  {
    UnrefMatches(s, m, s.current);
  }

  // ----- files stay safe

  /** Dropping versions from the list keeps what is said of files. */
  lemma {:induction false} FewerVersions(t: State, r: State)
    requires FilesOk(t) && r == t.(files := r.files, refs := r.refs) && r.current in r.files
    requires forall w :: w in r.files ==> w in t.files && r.files[w] == t.files[w]
    ensures FilesOk(r)
  {
  }

  /** Collecting takes nothing that is pending, named by a version, or within recovery's reach. */
  lemma {:induction false} CollectKeepsFiles(s: State)
    requires FilesOk(s) && BeingLogged(s).None?
    ensures FilesOk(Collect(s))
  {
    var s' := Collect(s);
    if !s.error {
      assert s.files[s.current] <= Named(s);
      forall v | v in s.files
        ensures s.files[v] <= s'.disk
      {
      }
    }
  }

  lemma {:induction false} CollectMatches(s: State, m: multiset<nat>)
    requires Match(s, m)
    ensures Match(Collect(s), m)
  {
  }

  lemma {:induction false} AfterFiles(s: State, e: Edit)
    requires FilesOk(s) && e.added <= s.disk && Below(e.added, s.next) && e.added !! s.pending
    ensures forall o :: o in After(s.manifest, e) ==> o <= s.disk && Below(o, s.next) && o !! s.pending
    ensures !s.error ==> After(s.manifest, e) == {Changed(s.files[s.current], e)}
    ensures var v := Changed(s.files[s.current], e); v <= s.disk && Below(v, s.next) && v !! s.pending
  {
    forall o | o in After(s.manifest, e)
      ensures o <= s.disk && Below(o, s.next) && o !! s.pending
    {
      var o0 :| o0 in s.manifest && o == Changed(o0, e);
    }
  }

  /** An edit whose files exist and are pending no more is installed, or left open. */
  lemma {:induction false} LoggedFiles(s: State, e: Edit, ok: bool)
    requires FilesOk(s) && BeingLogged(s).None? && s.current in s.refs && s.refs[s.current] > 0
    requires forall v :: v in s.files ==> v < s.nextId
    requires e.added <= s.disk && Below(e.added, s.next) && e.added !! s.pending
    ensures FilesOk(Logged(s, e, ok))
  {
    AfterFiles(s, e);
    hide After, Below, Changed;
    var r := Logged(s, e, ok);
    assert r.disk == s.disk && r.next == s.next && r.pending == s.pending && r.flush == s.flush &&
      r.compaction == s.compaction;
    forall v | v in r.files
      ensures r.files[v] <= r.disk && Below(r.files[v], r.next) && r.files[v] !! r.pending
    {
    }
    assert OnDisk(r);
    hide OnDisk;
  }

  /** The number taken for a new table is pending and not part of anything. */
  lemma {:induction false} NewNumberFiles(s: State, flush: Option<Flush>, compaction: Option<Compaction>)
    requires FilesOk(s) && s.flush.None?
    requires (flush == Some(Building(s.next, s.current)) && compaction ==
        s.compaction && (compaction.Some? ==> compaction.value.Running?))
          || (flush.None? && s.compaction.Some? && s.compaction.value.Running?
              && var c := s.compaction.value; compaction == Some(Running(c.input, c.deleted, c.outputs + {s.next})))
    ensures FilesOk(s.(next := s.next + 1, pending := s.pending + {s.next}, flush := flush, compaction := compaction))
  {
  }

  lemma {:induction false} BuiltFiles(s: State, ok: bool, empty: bool, removed: bool)
    requires FilesOk(s) && Enabled(s, EndBuild(ok, empty, removed))
    ensures FilesOk(Built(s, ok, empty, removed))
  {
    var n := s.flush.value.number;
    assert n in s.pending;
  }

  /** The compaction is gone, and with it its outputs from the pending ones. */
  ghost function Forgotten(s: State, c: Compaction): State {
    s.(pending := s.pending - OutputsOf(c), compaction := None)
  }

  lemma {:induction false} ForgottenFiles(s: State, c: Compaction)
    requires FilesOk(s) && s.compaction == Some(c) && s.flush.None?
    ensures FilesOk(Forgotten(s, c)) && BeingLogged(Forgotten(s, c)).None?
    ensures EditOf(c).Some? ==>
      EditOf(c).value.added <= s.disk && Below(EditOf(c).value.added, s.next) &&
          EditOf(c).value.added !! Forgotten(s, c).pending
  {
  }

  // ----- each step keeps the invariant

  lemma {:induction false} InvIs(s: State)
    ensures Inv(s) <==> Match(s, References(s)) && FilesOk(s)
  {
  }

  lemma {:induction false} CurrentListed(s: State, m: multiset<nat>)
    requires Match(s, References(s) + m)
    ensures s.current in s.refs && s.refs[s.current] > 0 && s.current in s.files &&
      forall v :: v in s.files ==> v < s.nextId
  {
  }

  lemma {:induction false} UnrefParts(t: State, v: nat)
    requires v in t.refs && t.refs[v] > 0
    ensures var r := Unref(t, v); References(r) == References(t) && r == t.(files := r.files, refs := r.refs)
  {
  }

  lemma {:induction false} RefParts(t: State, v: nat)
    requires v in t.refs
    ensures var r := Ref(t, v); References(r) == References(t) && r == t.(refs := r.refs)
  {
  }

  lemma {:induction false} Without(m: multiset<nat>, v: nat)
    ensures m + multiset{v} - multiset{v} == m && m + multiset{} == m
  {
  }

  /** One reference too many in the counts is dropped. */
  lemma {:induction false} UnrefInv(t: State, v: nat)
    requires Match(t, References(t) + multiset{v}) && FilesOk(t)
    ensures v in t.refs && t.refs[v] > 0 && Inv(Unref(t, v))
  {
    hide *;
    var m := References(t);
    assert v in m + multiset{v};
    UnrefMatches(t, m + multiset{v}, v);
    UnrefParts(t, v);
    Without(m, v);
    var r := Unref(t, v);
    CurrentListed(r, multiset{});
    FewerVersions(t, r);
    InvIs(r);
  }

  /** One reference too few in the counts is added. */
  lemma {:induction false} RefInv(t: State, m: multiset<nat>, v: nat)
    requires Match(t, m) && v in m && References(t) == m + multiset{v} && FilesOk(t)
    ensures v in t.refs && Inv(Ref(t, v))
  {
    RefMatches(t, m, v);
    hide *;
    RefParts(t, v);
    var r := Ref(t, v);
    Without(References(r), v);
    CurrentListed(r, multiset{});
    FewerVersions(t, r);
    InvIs(r);
  }

  lemma {:induction false} MatchFrame(s: State, t: State, m: multiset<nat>)
    requires Match(s, m) && t.files == s.files && t.refs == s.refs && t.nextId == s.nextId
    ensures Match(t, m)
  {
  }

  lemma {:induction false} HeldFiles(s: State, t: State)
    requires FilesOk(s) && t == s.(held := t.held)
    ensures FilesOk(t)
  {
  }

  lemma {:induction false} HeldReferences(s: State, v: nat)
    ensures References(s.(held := s.held + multiset{v})) == References(s) + multiset{v}
    ensures v in s.held ==> References(s.(held := s.held - multiset{v})) + multiset{v} == References(s)
    ensures s.current in References(s)
  {
  }

  lemma {:induction false} WorkReferences(s: State, flush: Option<Flush>, compaction: Option<Compaction>, next: nat,
        pending: set<nat>)
    requires (flush.Some? && flush.value.Building? && flush.value.base == s.current && s.flush.None? && compaction ==
        s.compaction)
          || (compaction.Some? && compaction.value.input == s.current && s.compaction.None? && flush == s.flush)
    ensures References(s.(next := next, pending := pending, flush := flush, compaction := compaction)) ==
        References(s) + multiset{s.current}
  {
  }

  lemma {:induction false} SameInv(s: State, t: State)
    requires Match(s, References(s)) &&
      t == s.(next := t.next, disk := t.disk, pending := t.pending, compaction := t.compaction)
    requires CompactionRefs(t.compaction) == CompactionRefs(s.compaction) && FilesOk(t)
    ensures Inv(t)
  {
    hide FilesOk, CompactionRefs, FlushRefs, Match;
    assert References(t) == References(s);
    MatchFrame(s, t, References(s));
  }

  lemma {:induction false} NewLogKeepsInv(s: State)
    requires Inv(s)
    ensures Inv(Apply(s, NewLog))
  {
    hide FilesOk, Match, References, Ref, Unref, Counted, Inv, Built, Logged, CleanUp, Collect, Reopened;
    InvIs(s);
    var t := s.(next := s.next + 1);
    MoreRoom(s, t);
    SameInv(s, t);
  }

  lemma {:induction false} WriteTableKeepsInv(s: State, n: nat)
    requires Inv(s) && Enabled(s, WriteTable(n))
    ensures Inv(Apply(s, WriteTable(n)))
  {
    hide FilesOk, Match, References, Ref, Unref, Counted, Inv, Built, Logged, CleanUp, Collect, Reopened;
    InvIs(s);
    var t := s.(disk := s.disk + {n});
    MoreRoom(s, t);
    SameInv(s, t);
  }

  lemma {:induction false} MoreRoom(s: State, t: State)
    requires FilesOk(s) && t == s.(next := t.next, disk := t.disk) && s.next <= t.next && s.disk <= t.disk
    ensures FilesOk(t)
  {
  }

  lemma {:induction false} OpenOutputKeepsInv(s: State)
    requires Inv(s) && Enabled(s, OpenOutput)
    ensures Inv(Apply(s, OpenOutput))
  {
    hide FilesOk, Match, References, Ref, Unref, Counted, Inv, Built, Logged, CleanUp, Collect, Reopened;
    InvIs(s);
    var c := s.compaction.value;
    var more := Some(Running(c.input, c.deleted, c.outputs + {s.next}));
    NewNumberFiles(s, None, more);
    SameInv(s, s.(next := s.next + 1, pending := s.pending + {s.next}, compaction := more));
  }

  lemma {:induction false} AcquireKeepsInv(s: State)
    requires Inv(s)
    ensures Inv(Apply(s, Acquire))
  {
    hide FilesOk, Match, References, Ref, Unref, Counted, Inv, Built, Logged, CleanUp, Collect, Reopened;
    InvIs(s);
    var t := s.(held := s.held + multiset{s.current});
    HeldFiles(s, t);
    HeldReferences(s, s.current);
    MatchFrame(s, t, References(s));
    RefInv(t, References(s), s.current);
  }

  lemma {:induction false} DropKeepsInv(s: State, v: nat)
    requires Inv(s) && v in s.held
    ensures Inv(Apply(s, Drop(v)))
  {
    hide FilesOk, Match, References, Ref, Unref, Counted, Inv, Built, Logged, CleanUp, Collect, Reopened;
    InvIs(s);
    var t := s.(held := s.held - multiset{v});
    HeldFiles(s, t);
    HeldReferences(s, v);
    MatchFrame(s, t, References(s));
    UnrefInv(t, v);
  }

  lemma {:induction false} StartFlushKeepsInv(s: State)
    requires Inv(s) && Enabled(s, StartFlush)
    ensures Inv(Apply(s, StartFlush))
  {
    hide FilesOk, Match, References, Ref, Unref, Counted, Inv, Built, Logged, CleanUp, Collect, Reopened;
    InvIs(s);
    var flush := Some(Building(s.next, s.current));
    var t := s.(next := s.next + 1, pending := s.pending + {s.next}, flush := flush);
    HeldReferences(s, s.current);
    WorkReferences(s, flush, s.compaction, t.next, t.pending);
    NewNumberFiles(s, flush, s.compaction);
    MatchFrame(s, t, References(s));
    RefInv(t, References(s), s.current);
  }

  lemma {:induction false} StartWorkKeepsInv(s: State, step: Step)
    requires Inv(s) && Enabled(s, step) && (step.StartCompaction? || step.StartMove?)
    ensures Inv(Apply(s, step))
  {
    hide FilesOk, Match, References, Ref, Unref, Counted, Inv, Built, Logged, CleanUp, Collect, Reopened;
    InvIs(s);
    var c := if step.StartMove? then Moving(s.current, step.n) else Running(s.current, step.inputs, {});
    var t := s.(compaction := Some(c));
    HeldReferences(s, s.current);
    WorkReferences(s, s.flush, Some(c), s.next, s.pending);
    StartFiles(s, c);
    MatchFrame(s, t, References(s));
    RefInv(t, References(s), s.current);
  }

  lemma {:induction false} StartFiles(s: State, c: Compaction)
    requires FilesOk(s) && s.flush.None? && s.compaction.None? && OutputsOf(c) == {}
    requires c.Moving? ==> s.current in s.files && c.n in s.files[s.current]
    requires c.Running? || c.Moving?
    ensures FilesOk(s.(compaction := Some(c)))
  {
  }

  lemma {:induction false} EndBuildKeepsInv(s: State, ok: bool, empty: bool, removed: bool)
    requires Inv(s) && Enabled(s, EndBuild(ok, empty, removed))
    ensures Inv(Apply(s, EndBuild(ok, empty, removed)))
  {
    BuiltFiles(s, ok, empty, removed);
    hide FilesOk;
    var t, b := Built(s, ok, empty, removed), s.flush.value.base;
    assert References(t) + multiset{b} == References(s);
    UnrefInv(t, b);
  }

  /** The manifest write ends. */
  lemma {:induction false} LoggedInv(t: State, e: Edit, ok: bool, m: multiset<nat>)
    requires Match(t, References(t) + m) && FilesOk(t) && BeingLogged(t).None?
    requires e.added <= t.disk && Below(e.added, t.next) && e.added !! t.pending
    ensures t.current in t.refs && t.refs[t.current] > 0 && t.current in t.files
    ensures var r := Logged(t, e, ok); Match(r, References(r) + m) && FilesOk(r) && BeingLogged(r).None?
  {
    hide FilesOk, Match, References, Below;
    CurrentListed(t, m);
    LoggedFiles(t, e, ok);
    LoggedMatches(t, e, ok, m);
  }

  lemma {:induction false} LoggedMatches(t: State, e: Edit, ok: bool, m: multiset<nat>)
    requires Match(t, References(t) + m) && t.current in t.refs && t.refs[t.current] > 0 && t.current in t.files
    ensures var r := Logged(t, e, ok); Match(r, References(r) + m)
  {
    InstallMatches(t, References(t) + m, e);
    var r := Logged(t, e, ok);
    if ok {
      assert References(r) + m == References(t) + m - multiset{t.current} + multiset{t.nextId};
    }
  }

  lemma {:induction false} EndFlushKeepsInv(s: State, ok: bool)
    requires Inv(s) && Enabled(s, EndFlush(ok))
    ensures Inv(Apply(s, EndFlush(ok)))
  {
    var t, e := s.(flush := None), s.flush.value.e;
    FlushOver(s, t);
    hide FilesOk, Match, References, Below;
    LoggedInv(t, e, ok, multiset{});
    var r := Logged(t, e, ok);
    assert References(r) + multiset{} == References(r);
    if ok {
      CollectKeepsFiles(r);
      CollectMatches(r, References(r));
      assert References(Collect(r)) == References(r) by {
        CollectParts(r);
      }
    }
  }

  lemma {:induction false} CollectParts(s: State)
    ensures References(Collect(s)) == References(s)
  {
  }

  lemma {:induction false} FlushOver(s: State, t: State)
    requires Inv(s) && s.flush.Some? && s.flush.value.FlushLogging? && t == s.(flush := None)
    ensures var e := s.flush.value.e; e.added <= t.disk && Below(e.added, t.next) && e.added !! t.pending
    ensures Match(t, References(t) + multiset{}) && FilesOk(t) && BeingLogged(t).None?
  {
    assert References(t) + multiset{} == References(s);
  }

  lemma {:induction false} WorkDoneFiles(s: State, c: Compaction)
    requires FilesOk(s) && s.flush.None? && s.compaction == Some(c) && c.Running? && c.outputs <= s.disk
    ensures FilesOk(s.(compaction := Some(Logging(c.input, c.deleted, c.outputs))))
  {
  }

  lemma {:induction false} FailedFiles(s: State)
    requires FilesOk(s)
    ensures FilesOk(s.(error := true)) && References(s.(error := true)) == References(s)
  {
  }

  lemma {:induction false} ForgottenReferences(s: State, c: Compaction)
    requires s.compaction == Some(c)
    ensures References(Forgotten(s, c)) + multiset{c.input} == References(s)
  {
  }

  lemma {:induction false} CollectInv(s: State)
    requires Inv(s) && BeingLogged(s).None?
    ensures Inv(Collect(s))
  {
    hide FilesOk, Match, References, Collect;
    CollectKeepsFiles(s);
    CollectMatches(s, References(s));
    CollectParts(s);
  }

  lemma {:induction false} EndWorkKeepsInv(s: State, ok: bool)
    requires Inv(s) && Enabled(s, EndWork(ok))
    ensures Inv(Apply(s, EndWork(ok)))
  {
    hide FilesOk, Match, References, Ref, Unref, Counted, Inv, Built, Logged, Collect, Reopened;
    InvIs(s);
    var c := s.compaction.value;
    if ok {
      WorkDoneFiles(s, c);
      SameInv(s, s.(compaction := Some(Logging(c.input, c.deleted, c.outputs))));
    } else {
      var f := s.(error := true);
      FailedFiles(s);
      ForgottenFiles(f, c);
      ForgottenReferences(f, c);
      var t := Forgotten(f, c);
      MatchFrame(s, t, References(s));
      UnrefInv(t, c.input);
      UnrefLogs(t, c.input);
      CollectInv(Unref(t, c.input));
    }
  }

  lemma {:induction false} UnrefLogs(s: State, v: nat)
    ensures BeingLogged(Unref(s, v)) == BeingLogged(s)
  {
  }

  lemma {:induction false} ForgottenLater(s: State, c: Compaction, e: Edit, ok: bool)
    ensures Forgotten(Logged(s, e, ok), c) == Logged(Forgotten(s, c), e, ok)
  {
  }

  lemma {:induction false} EndCompactionKeepsInv(s: State, ok: bool)
    requires Inv(s) && Enabled(s, EndCompaction(ok))
    ensures Inv(Apply(s, EndCompaction(ok)))
  {
    hide FilesOk, Match, References, Ref, Unref, Counted, Inv, Built, Logged, Collect, Reopened;
    hide Below, Forgotten;
    InvIs(s);
    var c := s.compaction.value;
    var e := EditOf(c).value;
    ForgottenFiles(s, c);
    ForgottenReferences(s, c);
    var t := Forgotten(s, c);
    ForgottenFrame(s, c);
    MatchFrame(s, t, References(s));
    LoggedInv(t, e, ok, multiset{c.input});
    var r := Logged(t, e, ok);
    ForgottenLater(s, c, e, ok);
    UnrefInv(r, c.input);
    UnrefLogs(r, c.input);
    CollectInv(Unref(r, c.input));
    CleanUpIs(Logged(s, e, ok), c);
  }

  lemma {:induction false} ForgottenFrame(s: State, c: Compaction)
    ensures var t := Forgotten(s, c); t.files == s.files && t.refs == s.refs && t.nextId == s.nextId && t.disk == s.disk && t.next == s.next
  {
  }

  lemma {:induction false} CleanUpIs(s: State, c: Compaction)
    ensures CleanUp(s, c) == (var u := Unref(Forgotten(s, c), c.input); if c.Moving? then u else Collect(u))
  {
  }

  /** Whatever a crash leaves of the manifest, recovery finds every file it names. */
  lemma {:induction false} RecoveryFindsFiles(s: State)
    requires Inv(s)
    ensures forall o :: o in Outcomes(s) ==> o <= s.disk
  {
    forall o | o in Outcomes(s)
      ensures o <= s.disk
    {
      if o !in s.manifest {
        var e := BeingLogged(s).value;
        var o0 :| o0 in s.manifest && o == Changed(o0, e);
      }
    }
  }

  lemma {:induction false} ReopenKeepsInv(s: State, outcome: set<nat>, next: nat, recovered: set<nat>, after: nat)
    requires Inv(s) && Enabled(s, Reopen(outcome, next, recovered, after))
    ensures Inv(Reopened(s, outcome, recovered, after))
  {
    RecoveryFindsFiles(s);
    hide Inv, Outcomes;
    var r := Reopened(s, outcome, recovered, after);
    assert References(r) == multiset{0};
    assert Counted(r) && FilesOk(r);
    InvIs(r);
  }

  // ----- runs

  lemma {:induction false} StepKeepsInv(s: State, step: Step)
    requires Inv(s) && Enabled(s, step)
    ensures Inv(Apply(s, step))
  {
    hide Inv;
    match step
    case Acquire => AcquireKeepsInv(s);
    case Drop(v) => DropKeepsInv(s, v);
    case NewLog => NewLogKeepsInv(s);
    case StartFlush => StartFlushKeepsInv(s);
    case WriteTable(n) => WriteTableKeepsInv(s, n);
    case EndBuild(ok, empty, removed) => EndBuildKeepsInv(s, ok, empty, removed);
    case EndFlush(ok) => EndFlushKeepsInv(s, ok);
    case StartCompaction(_) => StartWorkKeepsInv(s, step);
    case StartMove(_) => StartWorkKeepsInv(s, step);
    case OpenOutput => OpenOutputKeepsInv(s);
    case EndWork(ok) => EndWorkKeepsInv(s, ok);
    case EndCompaction(ok) => EndCompactionKeepsInv(s, ok);
    case Reopen(outcome, next, recovered, after) => ReopenKeepsInv(s, outcome, next, recovered, after);
  }

  /** A new database: an empty version, current. */
  function Initial(): State {
    State(2, {}, {}, map[0 := {}], map[0 := 1], 1, 0, multiset{}, false, {{}}, None, None)
  }

  ghost predicate Legal(steps: seq<Step>)
    decreases |steps|, 0
  {
    steps == [] || (var n := |steps| - 1; Legal(steps[..n]) && Enabled(Run(steps[..n]), steps[n]))
  }

  ghost function Run(steps: seq<Step>): State
    requires Legal(steps)
    decreases |steps|, 1
  {
    if steps == [] then Initial() else Apply(Run(steps[..|steps| - 1]), steps[|steps| - 1])
  }

  /** In every run, with readers, flushes within compactions, failures and crashes anywhere: the
      versions referenced are those in the list, and each has all its files. */
  lemma {:induction false} RunSafe(steps: seq<Step>)
    requires Legal(steps)
    ensures Inv(Run(steps))
  {
    if steps == [] {
      assert References(Initial()) == multiset{0};
      assert Counted(Initial()) && FilesOk(Initial());
    } else {
      hide Inv, Enabled, Apply;
      var n := |steps| - 1;
      RunSafe(steps[..n]);
      StepKeepsInv(Run(steps[..n]), steps[n]);
    }
  }

  /** No step of a run deletes a table that is pending, that a referenced version names, or that
      recovery might need after it. */
  lemma {:induction false} NeverDeletesLive(steps: seq<Step>, n: nat)
    requires Legal(steps) && steps != []
    ensures var s, s' := Run(steps[..|steps| - 1]), Run(steps);
      n in s.disk && n !in s'.disk ==> n !in s'.pending && n !in Named(s') && forall o :: o in Outcomes(s') ==> n !in o
  {
    RunSafe(steps[..|steps| - 1]);
    RunSafe(steps);
    RecoveryFindsFiles(Run(steps));
    InvIs(Run(steps));
    PendingSurvives(Run(steps[..|steps| - 1]), steps[|steps| - 1], n);
  }

  lemma {:induction false} PendingSurvives(s: State, step: Step, n: nat)
    requires Enabled(s, step)
    ensures n in s.disk && n !in Apply(s, step).disk ==> n !in Apply(s, step).pending
  {
    hide Named, After, Changed, Outcomes, Below;
    match step
    case EndBuild(_, _, _) =>
    case EndFlush(_) =>
    case EndWork(_) =>
    case EndCompaction(_) =>
    case _ =>
  }

  // ----- what is left on disk

  /** The steps that end with deleting obsolete files. */
  predicate Collects(s: State, step: Step) {
    match step
    case EndFlush(ok) => ok
    case EndWork(ok) => !ok
    case EndCompaction(_) => s.compaction.Some? && !s.compaction.value.Moving?
    case _ => false
  }

  /** Some version in the list has this file. */
  ghost predicate InSomeVersion(s: State, n: nat) {
    exists v :: v in s.files && n in s.files[v]
  }

  lemma {:induction false} CollectLeaves(s: State)
    ensures var s' := Collect(s);
      && s' == s.(disk := s'.disk)
      && (s.error ==> s'.disk == s.disk)
      && (!s.error ==> forall n :: n in s'.disk <==> n in s.disk && (n in s.pending || InSomeVersion(s', n)))
  {
    var s' := Collect(s);
    forall n
      ensures n in Named(s) <==> InSomeVersion(s', n)
    {
      if InSomeVersion(s', n) {
        var v :| v in s'.files && n in s'.files[v];
        assert v in s.files && n in s.files[v];
      }
    }
  }

  lemma {:induction false} StepCollects(s: State, step: Step)
    requires Enabled(s, step) && Collects(s, step)
    ensures var s' := Apply(s, step);
      if s'.error then s'.disk == s.disk
      else forall n :: n in s'.disk <==> n in s.disk && (n in s'.pending || InSomeVersion(s', n))
  {
    hide Collect, Named, After, Changed, InSomeVersion, FilesOf;
    match step
    case EndFlush(ok) =>
      CollectLeaves(Logged(s.(flush := None), s.flush.value.e, ok));
    case EndWork(ok) =>
      var c := s.compaction.value;
      CollectLeaves(Unref(Forgotten(s.(error := true), c), c.input));
    case EndCompaction(ok) =>
      var c := s.compaction.value;
      CollectLeaves(Unref(Forgotten(Logged(s, EditOf(c).value, ok), c), c.input));
    case _ =>
  }

  /** In every run, after a step that deletes obsolete files the tables left are those before it that are
      pending or named by a version in the list; with an error set none is deleted. */
  lemma {:induction false} CollectsObsolete(steps: seq<Step>)
    requires Legal(steps) && steps != []
    requires Collects(Run(steps[..|steps| - 1]), steps[|steps| - 1])
    ensures var s, s' := Run(steps[..|steps| - 1]), Run(steps);
      if s'.error then s'.disk == s.disk
      else forall n :: n in s'.disk <==> n in s.disk && (n in s'.pending || InSomeVersion(s', n))
  {
    hide Enabled, Apply, Collects, InSomeVersion;
    StepCollects(Run(steps[..|steps| - 1]), steps[|steps| - 1]);
  }

  /** When after such a step nobody reads and no work is in progress, just the tables of the current
      version are left. */
  lemma {:induction false} QuietDiskIsCurrent(steps: seq<Step>)
    requires Legal(steps) && steps != []
    requires Collects(Run(steps[..|steps| - 1]), steps[|steps| - 1])
    requires var s' := Run(steps); !s'.error && s'.held == multiset{} && s'.flush.None? && s'.compaction.None?
    ensures var s' := Run(steps); s'.current in s'.files && s'.disk == s'.files[s'.current]
  {
    hide Enabled, Apply, Collects, Run, Legal, Inv;
    CollectsObsolete(steps);
    RunSafe(steps);
    OnlyCurrent(Run(steps));
  }

  lemma {:induction false} OnlyCurrent(s: State)
    requires Inv(s) && s.held == multiset{} && s.flush.None? && s.compaction.None?
    ensures s.current in s.files && s.files[s.current] <= s.disk && s.pending == {}
    ensures forall v :: v in s.files ==> v == s.current
  {
    assert References(s) == multiset{s.current};
    forall v | v in s.files
      ensures v == s.current
    {
      assert v in s.refs && v in References(s);
    }
  }

  // ----- what becomes current

  /** The version in place after the step has these files, and the others in the list are as they were. */
  ghost predicate MakesCurrent(s: State, s': State, files: set<nat>) {
    && s'.current in s'.files && s'.files[s'.current] == files
    && s'.current !in s.files
    && forall v :: v in s'.files && v != s'.current ==> v in s.files && s'.files[v] == s.files[v]
  }

  lemma {:induction false} InstallMakesCurrent(t: State, e: Edit, m: multiset<nat>)
    requires Match(t, References(t) + m)
    ensures t.current in t.files
    ensures MakesCurrent(t, Install(t, e), t.files[t.current] - e.deleted + e.added)
  {
    hide References;
    CurrentListed(t, m);
    UnrefMatches(t, References(t) + m, t.current);
  }

  /** A flush whose manifest write succeeds adds its table to the current version. */
  lemma {:induction false} FlushInstalls(s: State)
    requires Inv(s) && Enabled(s, EndFlush(true))
    ensures s.current in s.files
    ensures var e := s.flush.value.e;
      MakesCurrent(s, Apply(s, EndFlush(true)), s.files[s.current] - e.deleted + e.added)
  {
    var t, e := s.(flush := None), s.flush.value.e;
    FlushOver(s, t);
    InstallMakesCurrent(t, e, multiset{});
    hide Match, References, FilesOk, Install, Changed, Named;
    CollectLeaves(Logged(t, e, true));
  }

  lemma {:induction false} UnrefKeepsCurrent(s: State, r: State, v: nat, files: set<nat>)
    requires MakesCurrent(s, r, files) && v != r.current
    ensures MakesCurrent(s, Unref(r, v), files)
  {
  }

  lemma {:induction false} CollectKeepsCurrent(s: State, r: State, files: set<nat>)
    requires MakesCurrent(s, r, files)
    ensures MakesCurrent(s, Collect(r), files)
  {
    CollectLeaves(r);
  }

  /** A compaction whose manifest write succeeds takes its inputs from the current version and adds its
      outputs; a move takes a table out of it and adds it again. */
  lemma {:induction false} CompactionInstalls(s: State)
    requires Inv(s) && Enabled(s, EndCompaction(true))
    ensures s.current in s.files
    ensures MakesCurrent(s, Apply(s, EndCompaction(true)),
      match s.compaction.value
      case Logging(_, deleted, outputs) => s.files[s.current] - deleted + outputs
      case Moving(_, n) => s.files[s.current] - {n} + {n}
      case _ => {})
  {
    hide FilesOk, Match, References, Ref, Unref, Counted, Inv, Built, Collect, Reopened, Install, MakesCurrent;
    InvIs(s);
    var c := s.compaction.value;
    var e, t := EditOf(c).value, Forgotten(s, c);
    ForgottenReferences(s, c);
    MatchFrame(s, t, References(s));
    InputKnown(t, c.input);
    InstallMakesCurrent(t, e, multiset{c.input});
    var r := Logged(t, e, true);
    var files := t.files[t.current] - e.deleted + e.added;
    LoggedMakesCurrent(t, e, files);
    UnrefKeepsCurrent(t, r, c.input, files);
    CollectKeepsCurrent(t, Unref(r, c.input), files);
    ForgottenLater(s, c, e, true);
    CleanUpIs(Logged(s, e, true), c);
    CurrentFrom(s, t, Apply(s, EndCompaction(true)), files);
  }

  lemma {:induction false} LoggedMakesCurrent(t: State, e: Edit, files: set<nat>)
    requires MakesCurrent(t, Install(t, e), files)
    ensures MakesCurrent(t, Logged(t, e, true), files) && Logged(t, e, true).current == t.nextId
  {
  }

  lemma {:induction false} CurrentFrom(s: State, t: State, r: State, files: set<nat>)
    requires MakesCurrent(t, r, files) && t.files == s.files
    ensures MakesCurrent(s, r, files)
  {
  }

  lemma {:induction false} InputKnown(t: State, v: nat)
    requires Match(t, References(t) + multiset{v})
    ensures v < t.nextId
  {
    assert v in References(t) + multiset{v};
  }

  /** While a table is being moved the current version is the one that the move began with. */
  lemma {:induction false} MovesWithin(steps: seq<Step>)
    requires Legal(steps)
    ensures var s := Run(steps);
      s.compaction.Some? && s.compaction.value.Moving? ==>
        s.compaction.value.input == s.current && s.current in s.files && s.compaction.value.n in s.files[s.current]
  {
    if steps != [] {
      var n := |steps| - 1;
      MovesWithin(steps[..n]);
      RunSafe(steps[..n]);
      RunSafe(steps);
      MoveGoesOn(Run(steps[..n]), steps[n]);
    }
  }

  lemma {:induction false} MoveGoesOn(s: State, step: Step)
    requires Inv(s) && Enabled(s, step) && Inv(Apply(s, step))
    requires s.compaction.Some? && s.compaction.value.Moving? ==>
      s.compaction.value.input == s.current && s.current in s.files && s.compaction.value.n in s.files[s.current]
    ensures var s' := Apply(s, step);
      s'.compaction.Some? && s'.compaction.value.Moving? ==>
        s'.compaction.value.input == s'.current && s'.current in s'.files && s'.compaction.value.n in s'.files[s'.current]
  {
    hide Match, References, Collect, Changed, OnDisk, PendingOk;
    match step
    case EndFlush(ok) => CollectLeaves(Logged(s.(flush := None), s.flush.value.e, ok));
    case EndBuild(_, _, _) =>
    case EndWork(_) =>
      var c := s.compaction.value;
      CollectLeaves(Unref(Forgotten(s.(error := true), c), c.input));
    case EndCompaction(ok) =>
      var c := s.compaction.value;
      CollectLeaves(Unref(Forgotten(Logged(s, EditOf(c).value, ok), c), c.input));
    case _ =>
  }

  /** A move leaves the tables of the current version as they were. */
  lemma {:induction false} MoveKeepsTables(steps: seq<Step>)
    requires Legal(steps + [EndCompaction(true)])
    requires var s := Run(steps); s.compaction.Some? && s.compaction.value.Moving?
    ensures var s := Run(steps);
      s.current in s.files && MakesCurrent(s, Run(steps + [EndCompaction(true)]), s.files[s.current])
  {
    hide Enabled, Apply, MakesCurrent, Inv;
    var s, n := Run(steps), Run(steps).compaction.value.n;
    assert (steps + [EndCompaction(true)])[..|steps|] == steps;
    RunSafe(steps);
    MovesWithin(steps);
    CompactionInstalls(s);
    assert s.files[s.current] - {n} + {n} == s.files[s.current];
  }
}
