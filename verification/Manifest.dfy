/** The manifest: a log of edits from which the current version is rebuilt. */
module Manifest {
  import opened ByteStrings
  import opened InternalKeys
  import opened Reads
  import opened VersionEdit
  import opened Builder
  import Log
  import LogReader

  type Version = v: seq<seq<Meta>> | |v| == NUM_LEVELS
    witness seq(NUM_LEVELS, _ => [])

  type Pointers = p: seq<Bytes> | |p| == NUM_LEVELS
    witness seq(NUM_LEVELS, _ => [])

  const NO_FILES: Version := [[], [], [], [], [], [], []]
  const NO_POINTERS: Pointers := [[], [], [], [], [], [], []]

  // ----- replaying edits

  /** What the edits of a manifest add up to. */
  datatype Replay = Replay(
    levels: seq<LevelState>,
    pointers: Pointers,
    logNumber: Option<nat>,
    prevLogNumber: Option<nat>,
    nextFile: Option<nat>,
    lastSequence: Option<nat>)

  function Nothing(): (r: Replay)
    ensures |r.levels| == NUM_LEVELS
  {
    Replay(seq(NUM_LEVELS, _ => UNCHANGED), NO_POINTERS, None, None, None, None)
  }

  function Later(a: Option<nat>, b: Option<nat>): Option<nat> {
    if b.Some? then b else a
  }

  ghost predicate EditOk(e: Edit) {
    LevelsInRange(e) && EditFits(e)
  }

  ghost function ReplayEdit(r: Replay, e: Edit): (r': Replay)
    requires LevelsInRange(e) && |r.levels| == NUM_LEVELS
    ensures |r'.levels| == NUM_LEVELS
  {
    Replay(seq(NUM_LEVELS, l requires 0 <= l < NUM_LEVELS => ApplyAt(r.levels[l], l, e)),
        Pointed(r.pointers, e.compactPointers),
           Later(r.logNumber, e.logNumber), Later(r.prevLogNumber, e.prevLogNumber),
           Later(r.nextFile, e.nextFile), Later(r.lastSequence, e.lastSequence))
  }

  ghost predicate EditsOk(edits: seq<Edit>) {
    forall e :: e in edits ==> EditOk(e)
  }

  ghost function ReplayAll(edits: seq<Edit>): (r: Replay)
    requires EditsOk(edits)
    ensures |r.levels| == NUM_LEVELS
  {
    if edits == [] then Nothing()
    else
      assert edits[|edits| - 1] in edits;
      ReplayEdit(ReplayAll(edits[..|edits| - 1]), edits[|edits| - 1])
  }

  lemma {:induction false} ReplayLevels(edits: seq<Edit>, l: nat)
    requires EditsOk(edits) && l < NUM_LEVELS
    ensures ReplayAll(edits).levels[l] == ApplyAll(UNCHANGED, l, edits)
  {
    hide ApplyAt;
    if edits != [] {
      ReplayLevels(edits[..|edits| - 1], l);
    }
  }

  /** What recovery sets up. */
  datatype State = State(files: Version, pointers: Pointers, logNumber: nat, prevLogNumber: nat, nextFile: nat,
      lastSequence: nat)

  ghost function SavedLevels(base: Version, levels: seq<LevelState>): Version
    requires |levels| == NUM_LEVELS
  {
    seq(NUM_LEVELS, l requires 0 <= l < NUM_LEVELS => Saved(base[l], levels[l]))
  }

  ghost function Finish(base: Version, r: Replay): Option<State>
    requires |r.levels| == NUM_LEVELS
  {
    if r.nextFile.Some? && r.logNumber.Some? && r.lastSequence.Some? then
      Some(State(SavedLevels(base, r.levels), r.pointers, r.logNumber.value,
                 if r.prevLogNumber.Some? then r.prevLogNumber.value else 0, r.nextFile.value, r.lastSequence.value))
    else
      None
  }

  /** The replay of the manifest from a file position on; nothing if a record is damaged, is not
      an edit, or names another comparator. */
  ghost function RecoverFrom(file: Bytes, at: nat, name: Bytes, r: Replay): (o: Option<Replay>)
    requires at <= |file| && |r.levels| == NUM_LEVELS
    ensures o.Some? ==> |o.value.levels| == NUM_LEVELS
    decreases |file| - at
  {
    match LogReader.ReadLogical(file, at, None)
    case NoMore(_, d) => if d == [] then Some(r) else None
    case Got(record, next, d) =>
      var e := Decoded(record);
      if d != [] || !Decode(record, NO_EDIT).1 || !Comparable(e, name) then None
      else RecoverFrom(file, next, name, ReplayEdit(r, e))
  }

  function Decoded(record: Bytes): (e: Edit)
    ensures LevelsInRange(e) && e == Decode(record, NO_EDIT).0
  {
    DecodeInRange(record, NO_EDIT);
    Decode(record, NO_EDIT).0
  }

  predicate Comparable(e: Edit, name: Bytes) {
    e.comparator.Some? ==> e.comparator.value == name
  }

  function Record(e: Edit): Bytes {
    EncodeFields(FieldsOf(e))
  }

  function Records(edits: seq<Edit>): (rs: seq<Bytes>)
    ensures |rs| == |edits|
  {
    seq(|edits|, i requires 0 <= i < |edits| => Record(edits[i]))
  }

  ghost predicate AllComparable(edits: seq<Edit>, name: Bytes) {
    forall e :: e in edits ==> Comparable(e, name)
  }

  /** The records from a position on are those of the edits after the first `k`. */
  lemma {:induction false} RecoversAll(file: Bytes, at: nat, name: Bytes, edits: seq<Edit>, k: nat)
    requires EditsOk(edits) && AllComparable(edits, name) && at <= |file| && k <= |edits|
    requires LogReader.ReadAll(file, at) == LogReader.Contents(Records(edits[k..]), [])
    ensures RecoverFrom(file, at, name, ReplayAll(edits[..k])) == Some(ReplayAll(edits))
    decreases |edits| - k
  {
    hide LogReader.ReadLogical, ReplayEdit, Decode, Record, EditFits, LevelsInRange;
    var l := LogReader.ReadLogical(file, at, None);
    if k == |edits| {
      assert l.NoMore?;
      assert edits[..k] == edits;
    } else {
      assert l.Got?;
      var e := edits[k];
      assert e in edits && edits[k..][0] == e;
      assert l.record == Records(edits[k..])[0] == Record(e);
      assert Records(edits[k..])[1..] == Records(edits[k + 1..]);
      RecordDecodes(e);
      assert edits[..k + 1][..k] == edits[..k];
      RecoversAll(file, l.next, name, edits, k + 1);
    }
  }

  lemma {:induction false} RecordDecodes(e: Edit)
    requires EditOk(e)
    ensures Decode(Record(e), NO_EDIT) == (e, true)
  {
    RoundTrip(e);
  }

  lemma {:induction false} LogAppended(at: nat, rs: seq<Bytes>, r: Bytes)
    ensures Log.LogOf(at, rs + [r]) == Log.LogOf(at, rs) + Log.Written(at + |Log.LogOf(at, rs)|, r, true)
    decreases |rs|
  {
    hide Log.Written;
    if rs == [] {
      assert ([] + [r])[1..] == [];
    } else {
      var w := Log.Written(at, rs[0], true);
      assert (rs + [r])[1..] == rs[1..] + [r];
      LogAppended(at + |w|, rs[1..], r);
    }
  }

  // ----- the snapshot

  function SnapshotPointers(pointers: Pointers, n: nat): (ps: seq<(nat, Bytes)>)
    requires n <= NUM_LEVELS
    ensures forall p :: p in ps ==> p.0 < n
  {
    if n == 0 then []
    else SnapshotPointers(pointers, n - 1) + if pointers[n - 1] == [] then [] else [(n - 1, pointers[n - 1])]
  }

  function AtLevel(level: nat, files: seq<Meta>): (r: seq<(nat, Meta)>)
    ensures |r| == |files|
  {
    seq(|files|, i requires 0 <= i < |files| => (level, files[i]))
  }

  function SnapshotFiles(files: Version, n: nat): seq<(nat, Meta)>
    requires n <= NUM_LEVELS
  {
    if n == 0 then [] else SnapshotFiles(files, n - 1) + AtLevel(n - 1, files[n - 1])
  }

  /** The edit that makes the version from nothing. */
  function Snapshot(name: Bytes, pointers: Pointers, files: Version): Edit {
    NO_EDIT.(comparator := Some(name), compactPointers := SnapshotPointers(pointers, NUM_LEVELS),
        added := SnapshotFiles(files, NUM_LEVELS))
  }

  lemma {:induction false} SnapshotAdds(files: Version, n: nat, level: nat)
    requires n <= NUM_LEVELS && level < NUM_LEVELS
    ensures AddsAt(SnapshotFiles(files, n), level) == if level < n then files[level] else []
  {
    if n > 0 {
      SnapshotAdds(files, n - 1, level);
      AddsOfLevel(SnapshotFiles(files, n - 1), n - 1, files[n - 1], level);
    }
  }

  lemma {:induction false} AddsOfLevel(before: seq<(nat, Meta)>, at: nat, files: seq<Meta>, level: nat)
    ensures AddsAt(before + AtLevel(at, files), level) == AddsAt(before, level) + if at == level then files else []
  {
    hide AddsAt;
    if files == [] {
      assert before + AtLevel(at, files) == before;
    } else {
      var n := |files| - 1;
      var some := before + AtLevel(at, files[..n]);
      AddsOfLevel(before, at, files[..n], level);
      assert before + AtLevel(at, files) == some + [(at, files[n])];
      AddsStep(some, (at, files[n]), level);
      assert files == files[..n] + [files[n]];
    }
  }

  lemma {:induction false} AddsStep(before: seq<(nat, Meta)>, p: (nat, Meta), level: nat)
    ensures AddsAt(before + [p], level) == AddsAt(before, level) + if p.0 == level then [p.1] else []
  {
    assert (before + [p])[..|before|] == before;
  }

  lemma {:induction false} SnapshotPoints(pointers: Pointers, start: Pointers, n: nat)
    requires n <= NUM_LEVELS && forall i :: 0 <= i < NUM_LEVELS ==> start[i] == []
    ensures var r := Pointed(start, SnapshotPointers(pointers, n)); forall i :: 0 <= i < NUM_LEVELS ==>
        r[i] == if i < n then pointers[i] else []
  {
    if n == 0 {
      assert SnapshotPointers(pointers, 0) == [];
    } else {
      var ps := SnapshotPointers(pointers, n - 1);
      SnapshotPoints(pointers, start, n - 1);
      SnapshotStep(pointers, n);
      hide Pointed, SnapshotPointers;
      if pointers[n - 1] != [] {
        PointedStep(start, ps, (n - 1, pointers[n - 1]));
      }
    }
  }

  lemma {:induction false} SnapshotStep(pointers: Pointers, n: nat)
    requires 0 < n <= NUM_LEVELS
    ensures pointers[n - 1] == [] ==> SnapshotPointers(pointers, n) == SnapshotPointers(pointers, n - 1)
    ensures pointers[n - 1] != [] ==>
        SnapshotPointers(pointers, n) == SnapshotPointers(pointers, n - 1) + [(n - 1, pointers[n - 1])]
  {
  }

  lemma {:induction false} PointedStep(start: Pointers, ps: seq<(nat, Bytes)>, p: (nat, Bytes))
    requires p.0 < NUM_LEVELS && forall q :: q in ps ==> q.0 < NUM_LEVELS
    ensures forall q :: q in ps + [p] ==> q.0 < NUM_LEVELS
    ensures Pointed(start, ps + [p]) == Pointed(start, ps)[p.0 := p.1]
  {
    assert (ps + [p])[..|ps|] == ps;
  }

  lemma {:induction false} SnapshotRange(name: Bytes, pointers: Pointers, files: Version)
    ensures LevelsInRange(Snapshot(name, pointers, files))
  {
    SnapshotPoints(pointers, NO_POINTERS, NUM_LEVELS);
    FilesRange(files, NUM_LEVELS);
  }

  lemma {:induction false} FilesRange(files: Version, n: nat)
    requires n <= NUM_LEVELS
    ensures forall p :: p in SnapshotFiles(files, n) ==> p.0 < n && p.1 in files[p.0]
  {
    if n > 0 {
      FilesRange(files, n - 1);
    }
  }

  // ----- versions from edits

  ghost predicate Fresh(edits: seq<Edit>) {
    forall l :: 0 <= l < NUM_LEVELS ==> NeverReadded([], l, edits)
  }

  /** Levels in order, and numbers distinct within a level. */
  ghost predicate Sensible(v: Version) {
    forall l :: 0 <= l < NUM_LEVELS ==> Ordered(v[l]) && NumbersDiffer(v[l])
  }

  ghost predicate NumbersBelow(v: Version, n: nat) {
    forall l, f :: 0 <= l < NUM_LEVELS && f in v[l] ==> f.number < n
  }

  ghost predicate Replays(edits: seq<Edit>, v: Version) {
    forall l :: 0 <= l < NUM_LEVELS ==> Saved([], ApplyAll(UNCHANGED, l, edits)) == v[l]
  }

  /** The edits, replayed from nothing, give this version and these pointers. */
  ghost predicate Rebuilds(edits: seq<Edit>, name: Bytes, v: Version, pointers: Pointers) {
    && EditsOk(edits) && AllComparable(edits, name) && Fresh(edits)
    && Replays(edits, v) && ReplayAll(edits).pointers == pointers
  }

  /** ... and this whole state. */
  ghost predicate Gives(edits: seq<Edit>, name: Bytes, s: State) {
    && Rebuilds(edits, name, s.files, s.pointers)
    && Finish(NO_FILES, ReplayAll(edits)) == Some(s)
  }

  /** The version with one edit applied. */
  ghost function Next(v: Version, e: Edit): Version {
    seq(NUM_LEVELS, l requires 0 <= l < NUM_LEVELS => Saved(v[l], ApplyAt(UNCHANGED, l, e)))
  }

  ghost predicate Complete(e: Edit) {
    e.logNumber.Some? && e.prevLogNumber.Some? && e.nextFile.Some? && e.lastSequence.Some?
  }

  ghost function StateAfter(v: Version, pointers: Pointers, e: Edit): State
    requires Complete(e) && LevelsInRange(e)
  {
    State(Next(v, e), Pointed(pointers, e.compactPointers), e.logNumber.value, e.prevLogNumber.value,
        e.nextFile.value, e.lastSequence.value)
  }

  lemma {:induction false} SnapshotLevel(name: Bytes, pointers: Pointers, v: Version, l: nat)
    requires Sensible(v) && l < NUM_LEVELS
    ensures History([], l, [Snapshot(name, pointers, v)]) == v[l]
    ensures Saved([], ApplyAll(UNCHANGED, l, [Snapshot(name, pointers, v)])) == v[l]
  {
    hide Less, Saved, ApplyAll, SnapshotFiles, SnapshotPointers;
    var snap := Snapshot(name, pointers, v);
    SnapshotAdds(v, NUM_LEVELS, l);
    assert [snap][..0] == [] && [] + v[l] == v[l];
    assert History([], l, [snap]) == History([], l, []) + AddsAt(snap.added, l);
    ReplayIsFold([], l, [snap]);
    OneEdit([], l, snap);
    ListingUnique(Saved([], ApplyAll(UNCHANGED, l, [snap])), v[l], Changed(l, SetOf([]), snap));
  }

  lemma {:induction false} SnapshotRebuilds(name: Bytes, pointers: Pointers, v: Version)
    requires Sensible(v) && EditFits(Snapshot(name, pointers, v))
    ensures Rebuilds([Snapshot(name, pointers, v)], name, v, pointers)
  {
    hide Saved, ApplyAll, History, EditFits, LevelsInRange, NumbersDiffer, Ordered;
    var snap := Snapshot(name, pointers, v);
    SnapshotRange(name, pointers, v);
    forall l | 0 <= l < NUM_LEVELS
      ensures NeverReadded([], l, [snap]) && Saved([], ApplyAll(UNCHANGED, l, [snap])) == v[l]
    {
      SnapshotLevel(name, pointers, v, l);
    }
    SnapshotPoints(pointers, NO_POINTERS, NUM_LEVELS);
    hide SnapshotPointers, SnapshotFiles, Pointed;
    assert EditOk(snap);
    assert EditsOk([snap]) && AllComparable([snap], name);
    assert ReplayAll([snap]).pointers == Pointed(NO_POINTERS, snap.compactPointers) by {
      assert [snap][..0] == [];
    }
    assert Pointed(NO_POINTERS, snap.compactPointers) == pointers;
  }

  lemma {:induction false} NextLevel(edits: seq<Edit>, v: Version, e: Edit, l: nat)
    requires Fresh(edits + [e]) && Fresh(edits) && Replays(edits, v) && l < NUM_LEVELS
    ensures Saved([], ApplyAll(UNCHANGED, l, edits + [e])) == Next(v, e)[l]
    ensures Ordered(Next(v, e)[l]) && NumbersDiffer(Next(v, e)[l])
  {
    hide Less, Saved, ApplyAll, ApplyAt, NumbersDiffer, Lists;
    var more := edits + [e];
    assert more[..|edits|] == edits && more[|more| - 1] == e;
    ReplayIsEach([], l, edits);
    ReplayIsEach([], l, more);
    EachIsFold([], l, more);
    var saved := SavedEach([], l, more);
    assert saved == Saved(v[l], ApplyAt(UNCHANGED, l, e)) == Next(v, e)[l];
    assert History([], l, more) + [] == History([], l, more) && saved + [] == saved;
    NowDiffers(saved, Folded(l, SetOf([]), more), History([], l, more), []);
    ListsOrdered(saved, Folded(l, SetOf([]), more));
  }

  lemma {:induction false} ListsOrdered(files: seq<Meta>, all: set<Meta>)
    requires Lists(files, all)
    ensures Ordered(files)
  {
  }

  /** One more edit logged is one more version. */
  lemma {:induction false} NextGives(edits: seq<Edit>, name: Bytes, v: Version, pointers: Pointers, e: Edit)
    requires Rebuilds(edits, name, v, pointers) && EditOk(e) && Comparable(e, name) && Fresh(edits + [e]) && Complete(e)
    ensures Gives(edits + [e], name, StateAfter(v, pointers, e)) && Sensible(Next(v, e))
  {
    hide Saved, ApplyAll, ApplyAt, NeverReadded, Ordered, NumbersDiffer, EditFits, LevelsInRange;
    var more := edits + [e];
    forall l | 0 <= l < NUM_LEVELS
      ensures Saved([], ApplyAll(UNCHANGED, l, more)) == Next(v, e)[l] && Ordered(Next(v, e)[l]) &&
        NumbersDiffer(Next(v, e)[l])
    {
      NextLevel(edits, v, e, l);
    }
    assert more[..|edits|] == edits && more[|more| - 1] == e;
    var r := ReplayAll(more);
    assert SavedLevels(NO_FILES, r.levels) == Next(v, e) by {
      forall l | 0 <= l < NUM_LEVELS
        ensures SavedLevels(NO_FILES, r.levels)[l] == Next(v, e)[l]
      {
        ReplayLevels(more, l);
        assert NO_FILES[l] == [];
      }
    }
  }

  lemma {:induction false} NextMember(v: Version, e: Edit, l: nat, f: Meta)
    requires l < NUM_LEVELS && f in Next(v, e)[l]
    ensures f in v[l] || f in AddsAt(e.added, l)
  {
    var s := ApplyAt(UNCHANGED, l, e);
    KeepMember(Merge(v[l], s.added), s.deleted, f);
    MergeMember(v[l], s.added, f);
    if f in s.added {
      AddAllMember(UNCHANGED.(deleted := UNCHANGED.deleted + DeletesAt(e.deleted, l)), AddsAt(e.added, l), f);
    }
  }

  lemma {:induction false} KeepMember(files: seq<Meta>, deleted: set<nat>, f: Meta)
    requires f in Keep(files, deleted)
    ensures f in files && f.number !in deleted
  {
    if f in Keep(files[1..], deleted) {
      KeepMember(files[1..], deleted, f);
    }
  }

  lemma {:induction false} AddAllMember(s: LevelState, files: seq<Meta>, f: Meta)
    requires f in AddAll(s, files).added
    ensures f in s.added || f in files
  {
    if files != [] {
      var n := |files| - 1;
      InsertMember(AddAll(s, files[..n]).added, files[n]);
      if f != files[n] {
        AddAllMember(s, files[..n], f);
      }
    }
  }

  lemma {:induction false} AddsAtMember(added: seq<(nat, Meta)>, l: nat, f: Meta)
    ensures f in AddsAt(added, l) <==> (l, f) in added
  {
    if added != [] {
      var n := |added| - 1;
      assert added == added[..n] + [added[n]];
      AddsAtMember(added[..n], l, f);
    }
  }

  // ----- file numbers

  /** Every file has been seen on its level, and its number on no deeper one. */
  ghost predicate CameDown(seen: Version, v: Version) {
    && (forall l, f :: 0 <= l < NUM_LEVELS && f in v[l] ==> f in seen[l])
    && forall k, l, f, g :: 0 <= k < NUM_LEVELS && 0 <= l < NUM_LEVELS && f in seen[k] && g in v[l] && f.number == g.number ==> k <= l
  }

  ghost predicate Unseen(seen: Version, numbers: set<nat>) {
    forall l, f :: 0 <= l < NUM_LEVELS && f in seen[l] ==> f.number !in numbers
  }

  /** What the counter and the levels say of the numbers: those handed out and not used yet are on
      no file seen, and none is beyond the counter. */
  ghost predicate Tracked(seen: Version, v: Version, unused: set<nat>, nextFile: nat) {
    CameDown(seen, v) && Unseen(seen, unused) && NumbersBelow(seen, nextFile) &&
    forall n :: n in unused ==> n < nextFile
  }

  ghost function NumbersOf(e: Edit): set<nat> {
    set p | p in e.added :: p.1.number
  }

  /** Files made since, each with a number of its own from the counter. */
  ghost predicate AddsNew(e: Edit, unused: set<nat>) {
    NumbersOf(e) <= unused && forall i, j :: 0 <= i < j < |e.added| ==> e.added[i].1.number != e.added[j].1.number
  }

  ghost predicate MovesFile(e: Edit, v: Version, l: nat, f: Meta) {
    l + 1 < NUM_LEVELS && f in v[l] && e.added == [(l + 1, f)] && e.deleted == [(l, f.number)]
  }

  /** What flushes, recovery and compactions log: new files, or one file moved one level down. */
  ghost predicate FromCounter(e: Edit, v: Version, unused: set<nat>) {
    AddsNew(e, unused) || exists l: nat, f :: MovesFile(e, v, l, f)
  }

  ghost function SeenWith(seen: Version, e: Edit): Version {
    seq(NUM_LEVELS, l requires 0 <= l < NUM_LEVELS => seen[l] + AddsAt(e.added, l))
  }

  /** The files each level has had in a run of edits. */
  ghost function SeenIn(edits: seq<Edit>): Version {
    seq(NUM_LEVELS, l requires 0 <= l < NUM_LEVELS => History([], l, edits))
  }

  lemma {:induction false} AddsApart(added: seq<(nat, Meta)>, l: nat)
    requires forall i, j :: 0 <= i < j < |added| ==> added[i].1.number != added[j].1.number
    ensures NumbersDiffer(AddsAt(added, l))
  {
    if added != [] {
      var n := |added| - 1;
      AddsApart(added[..n], l);
      var some := AddsAt(added[..n], l);
      forall f | f in some
        ensures f.number != added[n].1.number
      {
        AddsAtMember(added[..n], l, f);
        var i :| 0 <= i < n && added[i] == (l, f);
      }
      forall i | 0 <= i < |some|
        ensures some[i].number != added[n].1.number
      {
        assert some[i] in some;
      }
    }
  }

  lemma {:induction false} DifferJoined(a: seq<Meta>, b: seq<Meta>)
    requires NumbersDiffer(a) && NumbersDiffer(b) && forall f, g :: f in a && g in b ==> f.number != g.number
    ensures NumbersDiffer(a + b)
  {
    var c := a + b;
    forall i, j | 0 <= i < j < |c|
      ensures c[i].number != c[j].number
    {
      if i < |a| <= j {
        assert a[i] in a && b[j - |a|] in b;
      }
    }
  }

  lemma {:induction false} OneAddition(l: nat, f: Meta)
    ensures forall k: nat :: AddsAt([(l, f)], k) == if k == l then [f] else []
  {
    assert [(l, f)][..0] == [];
  }

  /** No number comes back to a level it has been on. */
  lemma {:induction false} NumbersNeverReturn(seen: Version, v: Version, unused: set<nat>, n: nat, e: Edit, l: nat)
    requires Tracked(seen, v, unused, n) && FromCounter(e, v, unused) && l < NUM_LEVELS && NumbersDiffer(seen[l])
    ensures NumbersDiffer(seen[l] + AddsAt(e.added, l))
  {
    hide NumbersDiffer, AddsAt;
    forall f, g | f in seen[l] && g in AddsAt(e.added, l)
      ensures f.number != g.number
    {
      AddsAtMember(e.added, l, g);
      if !AddsNew(e, unused) {
        var k: nat, h :| MovesFile(e, v, k, h);
        assert (l, g) == (k + 1, h);
      }
    }
    if AddsNew(e, unused) {
      AddsApart(e.added, l);
    } else {
      var k: nat, h :| MovesFile(e, v, k, h);
      OneAddition(k + 1, h);
      OneDiffers(h);
    }
    DifferJoined(seen[l], AddsAt(e.added, l));
  }

  lemma {:induction false} OneDiffers(f: Meta)
    ensures NumbersDiffer([f]) && NumbersDiffer([])
  {
  }

  /** The file that an edit moves down is gone from its level. */
  lemma {:induction false} MovedIsGone(v: Version, e: Edit, l: nat, f: Meta, g: Meta)
    requires MovesFile(e, v, l, f) && g in Next(v, e)[l]
    ensures g.number != f.number
  {
    OneAddition(l + 1, f);
    assert DeletesAt(e.deleted, l) == {f.number} by {
      OnlyDeleted(l, f.number);
    }
    var s := ApplyAt(UNCHANGED, l, e);
    assert s == UNCHANGED.(deleted := UNCHANGED.deleted + {f.number});
    KeepMember(Merge(v[l], s.added), s.deleted, g);
  }

  lemma {:induction false} OnlyDeleted(l: nat, n: nat)
    ensures DeletesAt([(l, n)], l) == {n}
  {
    assert (l, n) in [(l, n)];
  }

  /** And so it stays, whatever edit of these kinds is installed. */
  lemma {:induction false} StaysTracked(seen: Version, v: Version, unused: set<nat>, n: nat, e: Edit)
    requires Tracked(seen, v, unused, n) && FromCounter(e, v, unused)
    ensures Tracked(SeenWith(seen, e), Next(v, e), unused - NumbersOf(e), n)
  {
    hide Next, AddsAt, FromCounter;
    var seen', v' := SeenWith(seen, e), Next(v, e);
    forall l, f | 0 <= l < NUM_LEVELS && f in v'[l]
      ensures f in seen'[l]
    {
      NextMember(v, e, l, f);
    }
    forall k, l, f, g | 0 <= k < NUM_LEVELS && 0 <= l < NUM_LEVELS && f in seen'[k] && g in v'[l] &&
        f.number == g.number
      ensures k <= l
    {
      NeverAbove(seen, v, unused, n, e, k, l, f, g);
    }
    forall l, f | 0 <= l < NUM_LEVELS && f in seen'[l]
      ensures f.number < n && f.number !in unused - NumbersOf(e)
    {
      SeenNumber(seen, v, unused, n, e, l, f);
    }
  }

  lemma {:induction false} SeenNumber(seen: Version, v: Version, unused: set<nat>, n: nat, e: Edit, l: nat, f: Meta)
    requires Tracked(seen, v, unused, n) && FromCounter(e, v, unused) && l < NUM_LEVELS && f in SeenWith(seen, e)[l]
    ensures f.number < n && f.number !in unused - NumbersOf(e)
  {
    hide AddsAt;
    if f !in seen[l] {
      AddsAtMember(e.added, l, f);
      assert f.number in NumbersOf(e);
      if !AddsNew(e, unused) {
        var k: nat, h :| MovesFile(e, v, k, h);
        assert f == h && h in seen[k];
      }
    }
  }

  lemma {:induction false} NeverAbove(seen: Version, v: Version, unused: set<nat>, n: nat, e: Edit, k: nat, l: nat,
        f: Meta, g: Meta)
    requires Tracked(seen, v, unused, n) && FromCounter(e, v, unused) && k < NUM_LEVELS && l < NUM_LEVELS
    requires f in SeenWith(seen, e)[k] && g in Next(v, e)[l] && f.number == g.number
    ensures k <= l
  {
    hide Next, AddsAt;
    NextMember(v, e, l, g);
    if f !in seen[k] {
      AddsAtMember(e.added, k, f);
    }
    if g !in v[l] {
      AddsAtMember(e.added, l, g);
    }
    if AddsNew(e, unused) {
      NewOnce(e, unused, seen, v, k, l, f, g);
    } else {
      var a: nat, h :| MovesFile(e, v, a, h);
      if g in v[l] && g.number == h.number {
        assert l == a by {
          assert h in seen[a] && g in seen[l];
        }
        MovedIsGone(v, e, a, h, g);
      }
    }
  }

  lemma {:induction false} NewOnce(e: Edit, unused: set<nat>, seen: Version, v: Version, k: nat, l: nat, f: Meta,
        g: Meta)
    requires CameDown(seen, v) && Unseen(seen, unused) && AddsNew(e, unused) && k < NUM_LEVELS && l < NUM_LEVELS &&
      f.number == g.number
    requires f in seen[k] || (k, f) in e.added
    requires g in v[l] || (l, g) in e.added
    ensures k <= l
  {
    if (k, f) in e.added {
      assert f.number in NumbersOf(e);
      if (l, g) in e.added {
        var i :| 0 <= i < |e.added| && e.added[i] == (k, f);
        var j :| 0 <= j < |e.added| && e.added[j] == (l, g);
        assert i == j;
      }
    } else {
      assert (l, g) in e.added ==> g.number in NumbersOf(e);
    }
  }

  /** Forgetting the files that are gone. */
  lemma {:induction false} TrackedNow(seen: Version, v: Version, unused: set<nat>, n: nat)
    requires Tracked(seen, v, unused, n)
    ensures Tracked(v, v, unused, n)
  {
  }

  lemma {:induction false} SeenMore(edits: seq<Edit>, e: Edit)
    ensures SeenIn(edits + [e]) == SeenWith(SeenIn(edits), e)
  {
    assert (edits + [e])[..|edits|] == edits;
  }

  /** The next version is in order too, whatever manifest it is logged to. */
  lemma {:induction false} NextSensible(v: Version, e: Edit)
    requires Sensible(v) && forall l :: 0 <= l < NUM_LEVELS ==> NumbersDiffer(v[l] + AddsAt(e.added, l))
    ensures Sensible(Next(v, e))
  {
    hide Less, Saved, ApplyAt, NumbersDiffer, AddsAt, Lists, Ordered;
    forall l | 0 <= l < NUM_LEVELS
      ensures Ordered(Next(v, e)[l]) && NumbersDiffer(Next(v, e)[l])
    {
      OneEditHistory(v[l], l, e);
      EachIsFold(v[l], l, [e]);
      var saved := SavedEach(v[l], l, [e]);
      assert saved == Next(v, e)[l];
      assert History(v[l], l, [e]) + [] == History(v[l], l, [e]) && saved + [] == saved;
      NowDiffers(saved, Folded(l, SetOf(v[l]), [e]), History(v[l], l, [e]), []);
      ListsOrdered(saved, Folded(l, SetOf(v[l]), [e]));
    }
  }

  lemma {:induction false} OneEditHistory(base: seq<Meta>, l: nat, e: Edit)
    ensures History(base, l, [e]) == base + AddsAt(e.added, l)
    ensures SavedEach(base, l, [e]) == Saved(base, ApplyAt(UNCHANGED, l, e))
  {
    assert [e][..0] == [];
  }

  /** Setting pointers twice is setting them once. */
  lemma {:induction false} PointedAgain(start: Pointers, ps: seq<(nat, Bytes)>)
    requires forall p :: p in ps ==> p.0 < NUM_LEVELS
    ensures Pointed(Pointed(start, ps), ps) == Pointed(start, ps)
  {
    forall i | 0 <= i < NUM_LEVELS
      ensures Pointed(Pointed(start, ps), ps)[i] == Pointed(start, ps)[i]
    {
      PointedAt(Pointed(start, ps), ps, i);
      PointedAt(start, ps, i);
    }
  }

  ghost function LastFor(ps: seq<(nat, Bytes)>, i: nat): Option<Bytes> {
    if ps == [] then None else if ps[|ps| - 1].0 == i then Some(ps[|ps| - 1].1) else LastFor(ps[..|ps| - 1], i)
  }

  lemma {:induction false} PointedAt(start: Pointers, ps: seq<(nat, Bytes)>, i: nat)
    requires i < NUM_LEVELS && forall p :: p in ps ==> p.0 < NUM_LEVELS
    ensures Pointed(start, ps)[i] == match LastFor(ps, i) case None => start[i] case Some(key) => key
  {
    if ps != [] {
      PointedAt(start, ps[..|ps| - 1], i);
    }
  }

  // ----- recovery gives back what was installed

  /** Recovery from a whole manifest sets up the state its edits give. */
  lemma {:induction false} RecoversState(edits: seq<Edit>, name: Bytes, s: State)
    requires Gives(edits, name, s)
    ensures RecoverFrom(Log.LogOf(0, Records(edits)), 0, name, Nothing()) == Some(ReplayAll(edits))
    ensures Finish(NO_FILES, ReplayAll(edits)) == Some(s)
  {
    hide *;
    var rs := Records(edits);
    var file := Log.LogOf(0, rs);
    GivesOk(edits, name, s);
    LogReader.AllWhole(0, rs);
    assert file[..|file|] == file;
    ReadsFirst(edits, |file|);
    assert edits[..|edits|] == edits;
    RecoversFirst(edits, |edits|, file, name);
  }

  lemma {:induction false} GivesOk(edits: seq<Edit>, name: Bytes, s: State)
    requires Gives(edits, name, s)
    ensures EditsOk(edits) && AllComparable(edits, name) && Fresh(edits) &&
      Finish(NO_FILES, ReplayAll(edits)) == Some(s)
  {
  }

  /** What a reader finds in the first `n` bytes of the manifest. */
  lemma {:induction false} ReadsFirst(edits: seq<Edit>, n: nat)
    requires n <= |Log.LogOf(0, Records(edits))|
    ensures var k := LogReader.WholeRecords(0, Records(edits), n);
      && LogReader.ReadAll(Log.LogOf(0, Records(edits))[..n], 0) == LogReader.Contents(Records(edits[..k]), [])
      && |Log.LogOf(0, Records(edits[..k]))| <= n
      && (k < |edits| ==> n < |Log.LogOf(0, Records(edits[..k + 1]))|)
  {
    hide Log.LogOf, LogReader.ReadAll, LogReader.WholeRecords, Record;
    var rs := Records(edits);
    LogReader.ReadsPrefix(Log.LogOf(0, rs)[..n], 0, rs);
    LogReader.WholeRecordsFit(0, rs, n);
    var k := LogReader.WholeRecords(0, rs, n);
    assert rs[..k] == Records(edits[..k]);
    assert k < |edits| ==> rs[..k + 1] == Records(edits[..k + 1]);
  }

  lemma {:induction false} RecoversFirst(edits: seq<Edit>, k: nat, file: Bytes, name: Bytes)
    requires EditsOk(edits) && AllComparable(edits, name) && k <= |edits|
    requires LogReader.ReadAll(file, 0) == LogReader.Contents(Records(edits[..k]), [])
    ensures EditsOk(edits[..k]) && RecoverFrom(file, 0, name, Nothing()) == Some(ReplayAll(edits[..k]))
  {
    hide LogReader.ReadAll, RecoverFrom, EditOk, Comparable, Record, ReplayEdit;
    var first := edits[..k];
    assert first[0..] == first && first[..0] == [];
    RecoversAll(file, 0, name, first, 0);
  }

  /** However a crash cuts the manifest short, recovery finds the version that was installed
      after the last edit wholly in it, file for file. */
  lemma {:induction false} RecoversPrefix(edits: seq<Edit>, n: nat, name: Bytes)
    requires EditsOk(edits) && AllComparable(edits, name) && Fresh(edits) && n <= |Log.LogOf(0, Records(edits))|
    ensures exists k :: Installs(edits, n, name, k)
  {
    hide *;
    ReadsFirst(edits, n);
    var k := LogReader.WholeRecords(0, Records(edits), n);
    RecoversFirst(edits, k, Log.LogOf(0, Records(edits))[..n], name);
    forall l | 0 <= l < NUM_LEVELS
      ensures Saved([], ReplayAll(edits[..k]).levels[l]) == SavedEach([], l, edits[..k])
    {
      ReplayLevels(edits[..k], l);
      FreshFirst(edits, k, l);
      ReplayIsEach([], l, edits[..k]);
    }
    IsInstalled(edits, n, name, k);
  }

  /** Of the first `n` bytes of the manifest the first `k` edits are whole, and recovery has the
      files of the version installed after the last of them. */
  ghost predicate Installs(edits: seq<Edit>, n: nat, name: Bytes, k: nat)
    requires EditsOk(edits) && n <= |Log.LogOf(0, Records(edits))|
  {
    && k <= |edits| && |Log.LogOf(0, Records(edits[..k]))| <= n
    && (k < |edits| ==> n < |Log.LogOf(0, Records(edits[..k + 1]))|)
    && EditsOk(edits[..k])
    && RecoverFrom(Log.LogOf(0, Records(edits))[..n], 0, name, Nothing()) == Some(ReplayAll(edits[..k]))
    && forall l :: 0 <= l < NUM_LEVELS ==> Saved([], ReplayAll(edits[..k]).levels[l]) == SavedEach([], l, edits[..k])
  }

  lemma {:induction false} IsInstalled(edits: seq<Edit>, n: nat, name: Bytes, k: nat)
    requires EditsOk(edits) && n <= |Log.LogOf(0, Records(edits))|
    requires k <= |edits| && |Log.LogOf(0, Records(edits[..k]))| <= n &&
      (k < |edits| ==> n < |Log.LogOf(0, Records(edits[..k + 1]))|)
    requires EditsOk(edits[..k])
    requires RecoverFrom(Log.LogOf(0, Records(edits))[..n], 0, name, Nothing()) == Some(ReplayAll(edits[..k]))
    requires forall l :: 0 <= l < NUM_LEVELS ==>
        Saved([], ReplayAll(edits[..k]).levels[l]) == SavedEach([], l, edits[..k])
    ensures Installs(edits, n, name, k)
  {
  }

  lemma {:induction false} FreshFirst(edits: seq<Edit>, k: nat, l: nat)
    requires Fresh(edits) && k <= |edits| && l < NUM_LEVELS
    ensures NeverReadded([], l, edits[..k]) && Ordered([])
  {
    assert NeverReadded([], l, edits);
    HistoryFirst(edits, k, l);
  }

  lemma {:induction false} HistoryFirst(edits: seq<Edit>, k: nat, l: nat)
    requires NeverReadded([], l, edits) && k <= |edits|
    ensures NeverReadded([], l, edits[..k])
    decreases |edits|
  {
    hide NumbersDiffer;
    if k < |edits| {
      var n := |edits| - 1;
      FewerDiffer(History([], l, edits[..n]), AddsAt(edits[n].added, l));
      HistoryFirst(edits[..n], k, l);
      assert edits[..n][..k] == edits[..k];
    } else {
      assert edits[..k] == edits;
    }
  }

  // ----- the version set

  /** An edit completed with the numbers of the version set. */
  ghost function Completed(e: Edit, logNumber: nat, prevLogNumber: nat, nextFile: nat, lastSequence: nat): (e': Edit)
    ensures Complete(e')
    ensures LevelsInRange(e) ==> LevelsInRange(e')
  {
    e.(logNumber := if e.logNumber.Some? then e.logNumber else Some(logNumber),
    prevLogNumber := if e.prevLogNumber.Some? then e.prevLogNumber else Some(prevLogNumber),
    nextFile := Some(nextFile), lastSequence := Some(lastSequence))
  }

  /** The edit as it was but with a log number and a previous one, its own if it had them, and with
      these counters. */
  ghost predicate FilledIn(e: Edit, e': Edit, logNumber: nat, prevLogNumber: nat, nextFile: nat, lastSequence: nat) {
    && e'.comparator == e.comparator && e'.compactPointers == e.compactPointers
    && e'.deleted == e.deleted && e'.added == e.added
    && e'.logNumber == Some(if e.logNumber.Some? then e.logNumber.value else logNumber)
    && e'.prevLogNumber == Some(if e.prevLogNumber.Some? then e.prevLogNumber.value else prevLogNumber)
    && e'.nextFile == Some(nextFile) && e'.lastSequence == Some(lastSequence)
  }

  /** Each level has, in order, the files it had but those deleted, and those added. */
  ghost predicate HasEdit(v: Version, e: Edit, v': Version) {
    forall l: nat :: l < NUM_LEVELS ==> LevelHas(v[l], e, l, v'[l])
  }

  ghost predicate LevelHas(files: seq<Meta>, e: Edit, l: nat, files': seq<Meta>) {
    && Ordered(files')
    && forall f :: f in files' <==> (f in files && (l, f.number) !in e.deleted) || (l, f) in e.added
  }

  /** Each level has the last pointer given for it, or the one it had. */
  ghost predicate HasPointers(pointers: Pointers, ps: seq<(nat, Bytes)>, pointers': Pointers) {
    forall l: nat :: l < NUM_LEVELS ==> PointerHas(pointers[l], ps, l, pointers'[l])
  }

  ghost predicate PointerHas(before: Bytes, ps: seq<(nat, Bytes)>, l: nat, after: Bytes) {
    && ((forall i :: 0 <= i < |ps| ==> ps[i].0 != l) ==> after == before)
    && forall i :: 0 <= i < |ps| && ps[i].0 == l && (forall j :: i < j < |ps| ==> ps[j].0 != l) ==> after == ps[i].1
  }

  /** The pointers of the edit hold from now on, and if it succeeded so do its files and log numbers. */
  ghost predicate CarriesOut(s: State, e: Edit, e': Edit, ok: bool, s': State) {
    && FilledIn(e, e', s.logNumber, s.prevLogNumber, s.nextFile, s.lastSequence)
    && HasPointers(s.pointers, e.compactPointers, s'.pointers)
    && s'.nextFile == s.nextFile && s'.lastSequence == s.lastSequence
    && (if ok then HasEdit(s.files, e, s'.files) else s'.files == s.files)
    && s'.logNumber == (if ok && e.logNumber.Some? then e.logNumber.value else s.logNumber)
    && s'.prevLogNumber == (if ok && e.prevLogNumber.Some? then e.prevLogNumber.value else s.prevLogNumber)
  }

  lemma {:induction false} PointedHas(pointers: Pointers, ps: seq<(nat, Bytes)>)
    requires forall p :: p in ps ==> p.0 < NUM_LEVELS
    ensures HasPointers(pointers, ps, Pointed(pointers, ps))
  {
    if ps != [] {
      var n := |ps| - 1;
      PointedHas(pointers, ps[..n]);
      forall l: nat | l < NUM_LEVELS
        ensures PointerHas(pointers[l], ps, l, Pointed(pointers, ps)[l])
      {
        assert PointerHas(pointers[l], ps[..n], l, Pointed(pointers, ps[..n])[l]);
      }
    }
  }

  lemma {:induction false} NextHas(v: Version, e: Edit, unused: set<nat>, n: nat)
    requires Sensible(v) && Tracked(v, v, unused, n) && FromCounter(e, v, unused)
    ensures HasEdit(v, e, Next(v, e))
  {
    hide Tracked, FromCounter, NumbersDiffer, AddsAt, Less, Saved, ApplyAt;
    AllNew(v, v, unused, n, e);
    forall l: nat | l < NUM_LEVELS
      ensures LevelHas(v[l], e, l, Next(v, e)[l])
    {
      OneEditHistory(v[l], l, e);
      EachIsFold(v[l], l, [e]);
      assert [e][..0] == [];
      assert Folded(l, SetOf(v[l]), [e]) == Changed(l, SetOf(v[l]), e);
      forall f
        ensures f in Next(v, e)[l] <==> (f in v[l] && (l, f.number) !in e.deleted) || (l, f) in e.added
      {
        AddsAtMember(e.added, l, f);
        assert f.number in DeletesAt(e.deleted, l) <==> (l, f.number) in e.deleted;
      }
    }
  }

  /** Recovery gives these files and pointers, and numbers above those in use. */
  ghost predicate StateOk(s: State, v: Version, pointers: Pointers, logNumber: nat, prevLogNumber: nat, nextFile: nat) {
    && s.files == v && s.pointers == pointers && s.logNumber == logNumber && s.prevLogNumber == prevLogNumber
    && NumbersBelow(v, s.nextFile) && logNumber < s.nextFile <= nextFile
  }

  /** A state to open a database with: levels in order, no number on two of them or beyond the counter. */
  ghost predicate Sound(s: State) {
    Sensible(s.files) && Tracked(s.files, s.files, {}, s.nextFile) && s.logNumber < s.nextFile
  }

  /** The manifest is a snapshot and an edit for every state it has led to. */
  ghost predicate Chain(logged: seq<Edit>, name: Bytes, states: seq<State>) {
    && states != [] && |logged| == |states| + 1
    && forall k :: 0 <= k < |states| ==> Reached(logged[..k + 2], name, states[k])
  }

  /** The manifest leads to this version, these pointers and numbers. */
  ghost predicate LeadsTo(logged: seq<Edit>, name: Bytes, states: seq<State>, v: Version, pointers: Pointers,
                  logNumber: nat, prevLogNumber: nat, nextFile: nat, unused: set<nat>) {
    && Chain(logged, name, states) && Tracked(SeenIn(logged), v, unused, nextFile)
    && StateOk(states[|states| - 1], v, pointers, logNumber, prevLogNumber, nextFile)
  }

  ghost predicate Reached(edits: seq<Edit>, name: Bytes, s: State) {
    Gives(edits, name, s) && Sound(s)
  }

  lemma {:induction false} ChainMore(logged: seq<Edit>, name: Bytes, states: seq<State>, e: Edit, s: State)
    requires (states == [] && |logged| == 1) || Chain(logged, name, states)
    requires Reached(logged + [e], name, s)
    ensures Chain(logged + [e], name, states + [s])
  {
    hide Reached;
    var logged', states' := logged + [e], states + [s];
    forall k | 0 <= k < |states'|
      ensures Reached(logged'[..k + 2], name, states'[k])
    {
      if k < |states| {
        assert logged'[..k + 2] == logged[..k + 2];
      } else {
        assert logged'[..k + 2] == logged';
      }
    }
  }

  lemma {:induction false} ChainEnd(logged: seq<Edit>, name: Bytes, states: seq<State>)
    requires Chain(logged, name, states)
    ensures states != [] && |logged| == |states| + 1 && Reached(logged, name, states[|states| - 1])
  {
    hide Reached;
    assert logged[..|states| - 1 + 2] == logged;
  }

  ghost function StateIn(file: Bytes, name: Bytes): Option<State> {
    match RecoverFrom(file, 0, name, Nothing())
    case None => None
    case Some(r) => Finish(NO_FILES, r)
  }

  /** The first `n` bytes of the manifest take in its snapshot and first edit. */
  ghost predicate FirstEditIn(logged: seq<Edit>, n: nat) {
    |logged| >= 2 && |Log.LogOf(0, Records(logged[..2]))| <= n
  }

  /** Of the first `n` bytes of the manifest the edits up to the state `k` are whole, and recovery
      brings back that state, sound enough to open the database with. */
  ghost predicate ComesBack(logged: seq<Edit>, name: Bytes, states: seq<State>, n: nat, k: nat) {
    && k < |states| && |logged| == |states| + 1 && n <= |Log.LogOf(0, Records(logged))|
    && |Log.LogOf(0, Records(logged[..k + 2]))| <= n
    && (k + 1 < |states| ==> n < |Log.LogOf(0, Records(logged[..k + 3]))|)
    && StateIn(Log.LogOf(0, Records(logged))[..n], name) == Some(states[k]) && Sound(states[k])
  }

  lemma {:induction false} CameBack(logged: seq<Edit>, name: Bytes, states: seq<State>, n: nat, k: nat)
    requires ComesBack(logged, name, states, n, k)
    ensures k < |states| && n <= |Log.LogOf(0, Records(logged))|
    ensures StateIn(Log.LogOf(0, Records(logged))[..n], name) == Some(states[k]) && Sound(states[k])
  {
  }

  lemma {:induction false} ChainReached(logged: seq<Edit>, name: Bytes, states: seq<State>, k: nat)
    requires Chain(logged, name, states) && k < |states|
    ensures Gives(logged[..k + 2], name, states[k]) && Sound(states[k])
  {
    hide Gives, Sound;
  }

  /** The part of the manifest that holds fewer edits is shorter. */
  lemma {:induction false} LogGrows(edits: seq<Edit>, k: nat)
    requires k < |edits|
    ensures |Log.LogOf(0, Records(edits[..k]))| <= |Log.LogOf(0, Records(edits[..k + 1]))|
  {
    hide Record, Log.LogOf;
    assert Records(edits[..k + 1]) == Records(edits[..k]) + [Record(edits[k])];
    LogAppended(0, Records(edits[..k]), Record(edits[k]));
  }

  lemma {:induction false} CrashFinds(logged: seq<Edit>, name: Bytes, states: seq<State>, n: nat)
    requires Chain(logged, name, states) && n <= |Log.LogOf(0, Records(logged))| && FirstEditIn(logged, n)
    ensures exists k: nat :: ComesBack(logged, name, states, n, k)
  {
    hide Log.LogOf, Records, RecoverFrom, Gives, Chain, Sound, Finish;
    ChainEnd(logged, name, states);
    GivesOk(logged, name, states[|states| - 1]);
    RecoversPrefix(logged, n, name);
    var j: nat :| Installs(logged, n, name, j);
    LogGrows(logged, 0);
    LogGrows(logged, 1);
    assert j >= 2;
    var k: nat := j - 2;
    ChainReached(logged, name, states, k);
    GivesOk(logged[..k + 2], name, states[k]);
    assert ComesBack(logged, name, states, n, k);
  }

  /** The numbers found so far in a manifest. */
  datatype Numbers = Numbers(log: Option<nat>, prevLog: Option<nat>, nextFile: Option<nat>, lastSequence: Option<nat>)
  {
    /** With these levels and pointers they make the whole replay. */
    ghost predicate Close(r: Replay, levels: seq<LevelState>, pointers: Pointers) {
      r == Replay(levels, pointers, log, prevLog, nextFile, lastSequence)
    }
  }

  class VersionSet {
    const name: Bytes
    var nextFileNumber: nat
    var manifestFileNumber: nat
    var lastSequence: nat
    var logNumber: nat
    var prevLogNumber: nat
    var compactPointer: Pointers
    var current: Version
    var descriptorLog: Log.Writer?
    /** The edits in the manifest, and whether every one of them was installed. */
    ghost var logged: seq<Edit>
    ghost var intact: bool
    /** The states the manifest has led to, one for every edit after the snapshot. */
    ghost var states: seq<State>
    /** Numbers handed out and not used in an edit yet. */
    ghost var unused: set<nat>

    ghost predicate Valid()
      reads this, descriptorLog
    {
      && Sensible(current) && Tracked(current, current, unused, nextFileNumber) && logNumber < nextFileNumber
      && (descriptorLog != null ==> descriptorLog.Valid() && descriptorLog.dest == Log.LogOf(0, Records(logged)))
      && (descriptorLog == null ==> intact)
      && (descriptorLog != null && intact ==> Recoverable())
    }

    /** What is installed, with the counters. */
    ghost function Now(): State
      reads this
    {
      State(current, compactPointer, logNumber, prevLogNumber, nextFileNumber, lastSequence)
    }

    /** The manifest leads to what is installed. */
    ghost predicate Recoverable()
      reads this
    {
      LeadsTo(logged, name, states, current, compactPointer, logNumber, prevLogNumber, nextFileNumber, unused)
    }

    constructor (name: Bytes)
      ensures Valid() && this.name == name && current == NO_FILES && compactPointer == NO_POINTERS &&
        descriptorLog == null
      ensures unused == {}
    {
      hide Sensible, Tracked;
      this.name := name;
      nextFileNumber, manifestFileNumber, lastSequence, logNumber, prevLogNumber := 2, 0, 0, 0, 0;
      compactPointer, current, descriptorLog := NO_POINTERS, NO_FILES, null;
      logged, intact, states, unused := [], true, [], {};
      new;
      NoFilesSensible();
    }

    method NewFileNumber() returns (n: nat)
      requires Valid()
      modifies `nextFileNumber, `unused
      ensures Valid() && n == old(nextFileNumber) && nextFileNumber == n + 1 && n !in old(unused) &&
        unused == old(unused) + {n}
    {
      hide Sensible, Chain, CameDown, Log.LogOf, Log.Writer.Valid, Records;
      n := nextFileNumber;
      nextFileNumber := nextFileNumber + 1;
      unused := unused + {n};
    }

    /** What the callers see to: the edit fits the format, its file numbers come from the counter or
        it moves a file down, and the log number does not go back. */
    ghost predicate MayApply(e: Edit)
      reads this
    {
      && LevelsInRange(e) && Comparable(e, name)
      && EditFits(Completed(e, logNumber, prevLogNumber, nextFileNumber, lastSequence))
      && (descriptorLog == null ==> EditFits(Snapshot(name, Pointed(compactPointer, e.compactPointers), current)))
      && (e.logNumber.Some? ==> logNumber <= e.logNumber.value < nextFileNumber)
      && FromCounter(e, current, unused)
    }

    /** Completes the edit, logs it after a snapshot if the manifest is new, and installs the
        version it leads to. Creating the manifest and syncing it may fail; what is installed after
        a failed write to an old manifest is not what that manifest leads to. */
    method LogAndApply(edit: VersionEdit, created: bool, synced: bool) returns (ok: bool)
      requires Valid() && MayApply(edit.edit)
      modifies this, edit, descriptorLog
      ensures Valid() && ok == ((old(descriptorLog) != null || created) && synced)
      ensures edit.edit == Completed(old(edit.edit), old(logNumber), old(prevLogNumber), nextFileNumber, lastSequence)
      ensures CarriesOut(old(Now()), old(edit.edit), edit.edit, ok, Now())
      ensures nextFileNumber == old(nextFileNumber) && lastSequence == old(lastSequence) &&
        manifestFileNumber == old(manifestFileNumber)
      ensures LevelsInRange(edit.edit) && compactPointer == Pointed(old(compactPointer), edit.edit.compactPointers)
      ensures current == if ok then Next(old(current), edit.edit) else old(current)
      ensures logNumber == if ok then edit.edit.logNumber.value else old(logNumber)
      ensures prevLogNumber == if ok then edit.edit.prevLogNumber.value else old(prevLogNumber)
      ensures intact == (old(intact) && (ok || old(descriptorLog) == null))
      ensures unused == old(unused) - NumbersOf(edit.edit) && (ok ==> descriptorLog != null)
      ensures ok && intact ==> states == if old(descriptorLog) == null then [Now()] else old(states) + [Now()]
    {
      hide Gives, Rebuilds, Sensible, EditFits, LevelsInRange, Tracked, LeadsTo, Chain, Fresh, Log.LogOf,
        Log.Writer.Valid;
      hide Records, Record, Pointed, Next, Snapshot, FromCounter, SeenIn, NumbersOf, Completed, Loggable, Comparable,
        CarriesOut;
      ghost var p, n := compactPointer, nextFileNumber;
      EditCarriesOut(Now(), edit.edit, unused);
      CompleteEdit(edit);
      ghost var e := edit.edit;
      CompletedLoggable(old(edit.edit), name, current, unused, logNumber, prevLogNumber, n, lastSequence);
      var v, pointers := BuildNext(edit);
      compactPointer := pointers;
      var isNew := descriptorLog == null;
      ghost var installed := State(v, pointers, e.logNumber.value, e.prevLogNumber.value, n, lastSequence);
      FewerUnused(current, unused, n, e);
      NextInOrder(current, unused, n, e);
      ghost var before := if isNew then [Snapshot(name, pointers, current)] else logged;
      ghost var past := if isNew then [] else states;
      if isNew {
        NewManifestLeads(name, current, p, pointers, n, unused, e);
        assert past + [installed] == [installed];
      } else if intact {
        OldManifestLeads(logged, name, states, current, p, logNumber, prevLogNumber, n, unused, e);
      }
      ok := LogEdit(edit, created, synced);
      if ok {
        Install(v, edit, past, installed);
      } else {
        unused := unused - NumbersOf(e);
        intact := intact && isNew;
      }
    }

    /** Makes the version current, once its edit is logged. */
    method Install(v: Version, edit: VersionEdit, ghost past: seq<State>, ghost installed: State)
      requires Complete(edit.edit) && descriptorLog != null && descriptorLog.Valid() &&
        descriptorLog.dest == Log.LogOf(0, Records(logged))
      requires Sensible(v) && Tracked(v, v, unused - NumbersOf(edit.edit), nextFileNumber) &&
        edit.edit.logNumber.value < nextFileNumber
      requires intact ==> LeadsTo(logged, name, past + [installed], v, compactPointer, edit.edit.logNumber.value,
          edit.edit.prevLogNumber.value,
                            nextFileNumber, unused - NumbersOf(edit.edit))
      modifies `states, `current, `logNumber, `prevLogNumber, `unused
      ensures Valid() && states == past + [installed] && unused == old(unused) - NumbersOf(edit.edit)
      ensures current == v && logNumber == edit.edit.logNumber.value && prevLogNumber == edit.edit.prevLogNumber.value
    {
      hide Sensible, Tracked, LeadsTo, Log.LogOf, Log.Writer.Valid, Records, NumbersOf;
      states, unused := past + [installed], unused - NumbersOf(edit.edit);
      current := v;
      logNumber := edit.edit.logNumber.value;
      prevLogNumber := edit.edit.prevLogNumber.value;
    }

    /** Writes the edit to the manifest, begun with a snapshot if there is none yet; a manifest
        that could not be begun is given up. */
    method LogEdit(edit: VersionEdit, created: bool, synced: bool) returns (ok: bool)
      requires descriptorLog != null ==> descriptorLog.Valid() && descriptorLog.dest == Log.LogOf(0, Records(logged))
      modifies `descriptorLog, `logged, descriptorLog
      ensures ok == ((old(descriptorLog) != null || created) && synced)
      ensures descriptorLog == null <==> old(descriptorLog) == null && !ok
      ensures descriptorLog != null ==> descriptorLog.Valid() && descriptorLog.dest == Log.LogOf(0, Records(logged))
      ensures old(descriptorLog) != null ==> descriptorLog == old(descriptorLog)
      ensures old(descriptorLog) == null && descriptorLog != null ==> fresh(descriptorLog)
      ensures ok ==> logged == (if old(descriptorLog) == null
          then [Snapshot(name, compactPointer, current)] else old(logged)) + [edit.edit]
    {
      hide Log.LogOf, Log.Writer.Valid, Records, Record, Snapshot;
      var isNew := descriptorLog == null;
      ok := !isNew || created;
      if isNew && ok {
        descriptorLog := new Log.Writer();
        WriteSnapshot();
      }
      if ok {
        WriteEdit(edit);
        ok := synced;
      }
      if !ok && isNew {
        descriptorLog := null;
      }
    }

    /** Rebuilds the state from a manifest, for a version set just made. */
    method Recover(file: Bytes) returns (ok: bool)
      requires current == NO_FILES && compactPointer == NO_POINTERS && descriptorLog == null && intact && unused == {}
      modifies this
      ensures descriptorLog == null && intact && unused == {} && (!ok ==> current == NO_FILES)
      ensures ok == Recovered(file).Some?
      ensures ok ==> var s := Recovered(file).value;
        && current == s.files && compactPointer == s.pointers && logNumber == s.logNumber
        && prevLogNumber == s.prevLogNumber
        && manifestFileNumber == s.nextFile && nextFileNumber == s.nextFile + 1 && lastSequence == s.lastSequence
      ensures ok && Sound(Recovered(file).value) ==> Valid()
    {
      hide RecoverFrom, Saved, Finish, Sensible, CameDown, Unseen;
      var builder := new Builder(current);
      var numbers;
      ok, numbers := ReplayManifest(file, builder);
      if !ok {
        return;
      }
      FinishIs(NO_FILES, Replay(builder.levels, compactPointer, numbers.log, numbers.prevLog, numbers.nextFile,
          numbers.lastSequence));
      if numbers.nextFile.None? || numbers.log.None? || numbers.lastSequence.None? {
        return false;
      }
      current := builder.SaveTo();
      assert current == SavedLevels(NO_FILES, builder.levels);
      manifestFileNumber, nextFileNumber := numbers.nextFile.value, numbers.nextFile.value + 1;
      lastSequence, logNumber := numbers.lastSequence.value, numbers.log.value;
      prevLogNumber := if numbers.prevLog.Some? then numbers.prevLog.value else 0;
    }

    /** Reads the edits of the manifest, one record after another, into the builder. */
    method ReplayManifest(file: Bytes, builder: Builder) returns (ok: bool, numbers: Numbers)
      requires compactPointer == NO_POINTERS && builder.Valid() && builder.levels == Nothing().levels
      modifies `compactPointer, builder
      ensures builder.Valid() && ok == RecoverFrom(file, 0, name, Nothing()).Some?
      ensures ok ==> numbers.Close(RecoverFrom(file, 0, name, Nothing()).value, builder.levels, compactPointer)
    {
      hide RecoverFrom, ReplayEdit, Decode, ApplyAt, Pointed, LevelsInRange, Later, LogReader.ReadLogical,
        LogReader.Reader.Valid, Comparable;
      var reader := new LogReader.Reader(file);
      numbers := Numbers(None, None, None, None);
      ghost var at := 0;
      ok := true;
      while true
        invariant fresh(reader) && reader.Valid() && builder.Valid() && reader.file == file &&
          reader.At() == at <= |file|
        invariant RecoverFrom(file, at, name,
                    Replay(builder.levels, compactPointer, numbers.log, numbers.prevLog, numbers.nextFile,
                        numbers.lastSequence))
               == RecoverFrom(file, 0, name, Nothing())
        modifies `compactPointer, reader, builder
        decreases |file| - at
      {
        ghost var r := Replay(builder.levels, compactPointer, numbers.log, numbers.prevLog, numbers.nextFile,
            numbers.lastSequence);
        RecoverStep(file, at, name, r);
        var reported := |reader.dropped|;
        var more, record := reader.ReadRecord();
        if |reader.dropped| > reported {
          return false, numbers;
        }
        if !more {
          return;
        }
        var fine, e := ApplyRecord(record, builder);
        if !fine {
          return false, numbers;
        }
        numbers := Numbers(Later(numbers.log, e.logNumber), Later(numbers.prevLog, e.prevLogNumber),
                           Later(numbers.nextFile, e.nextFile), Later(numbers.lastSequence, e.lastSequence));
        ReplayStep(r, e, builder.levels);
        at := reader.At();
      }
    }

    /** Decodes a record and hands the edit to the builder. */
    method ApplyRecord(record: Bytes, builder: Builder) returns (fine: bool, e: Edit)
      requires builder.Valid()
      modifies `compactPointer, builder
      ensures e == Decode(record, NO_EDIT).0 && fine == (Decode(record, NO_EDIT).1 && Comparable(e, name)) &&
        builder.Valid()
      ensures fine ==> LevelsInRange(e) && compactPointer == Pointed(old(compactPointer), e.compactPointers)
      ensures fine ==> forall l :: 0 <= l < NUM_LEVELS ==> builder.levels[l] == ApplyAt(old(builder.levels[l]), l, e)
    {
      hide Decode, ApplyAt, Pointed, LevelsInRange;
      NoneInRange();
      DecodeInRange(record, NO_EDIT);
      var edit := new VersionEdit();
      fine := edit.DecodeFrom(record);
      e := edit.edit;
      if edit.edit.comparator.Some? && edit.edit.comparator.value != name {
        fine := false;
      }
      if fine {
        compactPointer := builder.Apply(edit.edit, compactPointer);
      }
    }

    /** Recovering from the manifest brings back the version, pointers and log numbers installed,
        and a file number above those of every file and log in use. */
    lemma {:induction false} RecoversInstalled()
      requires Valid() && intact && descriptorLog != null
      ensures states != [] && Recovered(descriptorLog.dest) == Some(states[|states| - 1])
      ensures StateOk(states[|states| - 1], current, compactPointer, logNumber, prevLogNumber, nextFileNumber)
    {
      hide Gives, StateOk, Finish, RecoverFrom, Log.LogOf, Records, Chain, Sound, Tracked, Sensible, SeenIn;
      ChainEnd(logged, name, states);
      RecoversState(logged, name, states[|states| - 1]);
    }

    /** A crash leaves any number of bytes of the manifest, though not fewer than its first edit takes:
        only then does CURRENT name it. Recovery brings back the state after the last edit wholly there. */
    lemma {:induction false} CrashRecovers(n: nat)
      requires Valid() && intact && descriptorLog != null && n <= |descriptorLog.dest| && FirstEditIn(logged, n)
      ensures descriptorLog.dest == Log.LogOf(0, Records(logged)) &&
        exists k: nat :: ComesBack(logged, name, states, n, k)
    {
      hide Chain, Sensible, Tracked, Log.LogOf, Log.Writer.Valid, Records, ComesBack;
      CrashFinds(logged, name, states, n);
    }

    /** The database opened again after a crash: a version set as good as new, holding a state that
        was installed, its counter beyond every file that the state names. */
    method Reopen(n: nat) returns (again: VersionSet)
      requires Valid() && intact && descriptorLog != null && n <= |descriptorLog.dest| && FirstEditIn(logged, n)
      ensures fresh(again) && again.Valid() && again.name == name && again.intact && again.descriptorLog == null
      ensures exists k: nat :: ComesBack(logged, name, states, n, k) && again.Opens(states[k])
    {
      hide Chain, Sensible, Tracked, Log.LogOf, Log.Writer.Valid, Records, ComesBack, RecoverFrom, Finish,
        FirstEditIn, Sound;
      CrashRecovers(n);
      ghost var k: nat :| ComesBack(logged, name, states, n, k);
      CameBack(logged, name, states, n, k);
      again := new VersionSet(name);
      var ok := again.Recover(descriptorLog.dest[..n]);
    }

    ghost predicate Opens(s: State)
      reads this
    {
      && current == s.files && compactPointer == s.pointers && logNumber == s.logNumber
      && prevLogNumber == s.prevLogNumber
      && nextFileNumber == s.nextFile + 1 && lastSequence == s.lastSequence
    }

    /** What recovery finds in the file. */
    ghost function Recovered(file: Bytes): Option<State> {
      StateIn(file, name)
    }

    method CompleteEdit(edit: VersionEdit)
      modifies edit
      ensures edit.edit == Completed(old(edit.edit), logNumber, prevLogNumber, nextFileNumber, lastSequence)
    {
      if edit.edit.logNumber.None? {
        edit.edit := edit.edit.(logNumber := Some(logNumber));
      }
      if edit.edit.prevLogNumber.None? {
        edit.edit := edit.edit.(prevLogNumber := Some(prevLogNumber));
      }
      edit.edit := edit.edit.(nextFile := Some(nextFileNumber), lastSequence := Some(lastSequence));
    }

    method BuildNext(edit: VersionEdit) returns (v: Version, pointers: Pointers)
      requires LevelsInRange(edit.edit)
      ensures v == Next(current, edit.edit) && pointers == Pointed(compactPointer, edit.edit.compactPointers)
    {
      hide Saved, ApplyAt, Pointed, LevelsInRange;
      var builder := new Builder(current);
      pointers := builder.Apply(edit.edit, compactPointer);
      v := builder.SaveTo();
    }

    /** Logs the edit that makes the current version from nothing. */
    method WriteSnapshot()
      requires descriptorLog != null && descriptorLog.Valid() && descriptorLog.dest == []
      modifies descriptorLog, `logged
      ensures descriptorLog.Valid() && logged == [Snapshot(name, compactPointer, current)]
      ensures descriptorLog.dest == Log.LogOf(0, Records(logged))
    {
      hide SnapshotPointers, SnapshotFiles, Log.Writer.Valid, Log.LogOf, Log.Written, Record;
      var edit := new VersionEdit();
      edit.edit := edit.edit.(comparator := Some(name));
      SnapshotStarts(compactPointer, current);
      for level := 0 to NUM_LEVELS
        invariant fresh(edit) &&
          edit.edit == NO_EDIT.(comparator := Some(name), compactPointers := SnapshotPointers(compactPointer, level))
        modifies edit
      {
        SnapshotStep(compactPointer, level + 1);
        if compactPointer[level] != [] {
          edit.edit := edit.edit.(compactPointers := edit.edit.compactPointers + [(level, compactPointer[level])]);
        }
      }
      for level := 0 to NUM_LEVELS
        invariant fresh(edit) &&
          edit.edit == Snapshot(name, compactPointer, current).(added := SnapshotFiles(current, level))
        modifies edit
      {
        FilesStep(current, level);
        var files := current[level];
        for i := 0 to |files|
          invariant edit.edit ==
            Snapshot(name, compactPointer, current).(added := SnapshotFiles(current, level) + AtLevel(level, files)[..i])
          modifies edit
        {
          edit.edit := edit.edit.(added := edit.edit.added + [(level, files[i])]);
        }
        assert AtLevel(level, files)[..|files|] == AtLevel(level, files);
      }
      logged := [];
      NoLog();
      WriteEdit(edit);
      assert [] + [edit.edit] == [edit.edit];
    }

    /** Appends the edit to the log. */
    method WriteEdit(edit: VersionEdit)
      requires descriptorLog != null && descriptorLog.Valid() && descriptorLog.dest == Log.LogOf(0, Records(logged))
      modifies descriptorLog, `logged
      ensures descriptorLog.Valid() && logged == old(logged) + [edit.edit]
      ensures descriptorLog.dest == Log.LogOf(0, Records(logged))
    {
      hide Log.Writer.Valid, Log.LogOf, Log.Written, EncodeFields, FieldsOf;
      var record := edit.EncodeTo([]);
      descriptorLog.AddRecord(record);
      assert record == Record(edit.edit);
      hide Record;
      assert Records(logged + [edit.edit]) == Records(logged) + [record];
      LogAppended(0, Records(logged), record);
      logged := logged + [edit.edit];
    }
  }

  lemma {:induction false} FreshNext(edits: seq<Edit>, e: Edit)
    requires forall l :: 0 <= l < NUM_LEVELS ==> NumbersDiffer(History([], l, edits) + AddsAt(e.added, l))
    ensures Fresh(edits + [e])
  {
    assert (edits + [e])[..|edits|] == edits;
  }

  lemma {:induction false} NoFilesSensible()
    ensures Sensible(NO_FILES) && Tracked(NO_FILES, NO_FILES, {}, 2)
  {
    assert forall l :: 0 <= l < NUM_LEVELS ==> NO_FILES[l] == [];
  }

  lemma {:induction false} SameFiles(e: Edit, e': Edit, v: Version, unused: set<nat>)
    requires FromCounter(e, v, unused) && e'.added == e.added && e'.deleted == e.deleted
    ensures FromCounter(e', v, unused)
  {
    if !AddsNew(e, unused) {
      var l: nat, f :| MovesFile(e, v, l, f);
      assert MovesFile(e', v, l, f);
    }
  }

  lemma {:induction false} FewerUnused(v: Version, unused: set<nat>, n: nat, e: Edit)
    requires Tracked(v, v, unused, n)
    ensures Tracked(v, v, unused - NumbersOf(e), n) && Tracked(v, v, {}, n)
  {
  }

  /** No number of the edit has been on its level since the manifest was begun. */
  lemma {:induction false} AllNew(seen: Version, v: Version, unused: set<nat>, n: nat, e: Edit)
    requires Tracked(seen, v, unused, n) && FromCounter(e, v, unused) &&
      forall l :: 0 <= l < NUM_LEVELS ==> NumbersDiffer(seen[l])
    ensures forall l :: 0 <= l < NUM_LEVELS ==> NumbersDiffer(seen[l] + AddsAt(e.added, l))
  {
    hide Tracked, FromCounter, NumbersDiffer, AddsAt;
    forall l | 0 <= l < NUM_LEVELS
      ensures NumbersDiffer(seen[l] + AddsAt(e.added, l))
    {
      NumbersNeverReturn(seen, v, unused, n, e, l);
    }
  }

  lemma {:induction false} NextInOrder(v: Version, unused: set<nat>, n: nat, e: Edit)
    requires Sensible(v) && Tracked(v, v, unused, n) && FromCounter(e, v, unused)
    ensures Sensible(Next(v, e)) && Tracked(Next(v, e), Next(v, e), unused - NumbersOf(e), n)
  {
    hide Tracked, FromCounter, NumbersDiffer, AddsAt, Next, Ordered, SeenWith;
    AllNew(v, v, unused, n, e);
    NextSensible(v, e);
    StaysTracked(v, v, unused, n, e);
    TrackedNow(SeenWith(v, e), Next(v, e), unused - NumbersOf(e), n);
  }

  lemma {:induction false} NewManifest(name: Bytes, p: Pointers, pointers: Pointers, v: Version, e: Edit,
        unused: set<nat>, n: nat)
    requires Sensible(v) && EditFits(Snapshot(name, pointers, v)) && LevelsInRange(e) &&
      pointers == Pointed(p, e.compactPointers)
    requires Tracked(v, v, unused, n) && FromCounter(e, v, unused)
    ensures Rebuilds([Snapshot(name, pointers, v)], name, v, pointers) && Fresh([Snapshot(name, pointers, v)] + [e])
    ensures SeenIn([Snapshot(name, pointers, v)]) == v && Pointed(pointers, e.compactPointers) == pointers
  {
    hide Rebuilds, Snapshot, NumbersDiffer, History, AddsAt, Saved, ApplyAll, Pointed, EditFits, Tracked, FromCounter;
    SnapshotRebuilds(name, pointers, v);
    forall l | 0 <= l < NUM_LEVELS
      ensures History([], l, [Snapshot(name, pointers, v)]) == v[l]
    {
      SnapshotLevel(name, pointers, v, l);
    }
    assert SeenIn([Snapshot(name, pointers, v)]) == v;
    AllNew(v, v, unused, n, e);
    FreshNext([Snapshot(name, pointers, v)], e);
    PointedAgain(p, e.compactPointers);
  }

  lemma {:induction false} OldManifest(logged: seq<Edit>, name: Bytes, states: seq<State>, v: Version, p: Pointers,
                   logNumber: nat, prevLogNumber: nat, n: nat, unused: set<nat>, e: Edit)
    requires LeadsTo(logged, name, states, v, p, logNumber, prevLogNumber, n, unused) && FromCounter(e, v, unused)
    ensures Chain(logged, name, states) && Tracked(SeenIn(logged), v, unused, n)
    ensures Rebuilds(logged, name, v, p) && Fresh(logged + [e])
  {
    hide NumbersDiffer, History, AddsAt, Tracked, FromCounter, Replays, EditsOk, AllComparable, Chain;
    ChainEnd(logged, name, states);
    forall l | 0 <= l < NUM_LEVELS
      ensures NumbersDiffer(SeenIn(logged)[l])
    {
      assert NeverReadded([], l, logged);
    }
    AllNew(SeenIn(logged), v, unused, n, e);
    FreshNext(logged, e);
  }

  lemma {:induction false} SoundNext(seen: Version, v: Version, unused: set<nat>, n: nat, e: Edit, s: State)
    requires Tracked(seen, v, unused, n) && FromCounter(e, v, unused) && Sensible(Next(v, e))
    requires s.files == Next(v, e) && s.nextFile == n && s.logNumber < n
    ensures Sound(s)
  {
    hide Tracked, FromCounter, Next, Sensible, SeenWith;
    StaysTracked(seen, v, unused, n, e);
    TrackedNow(SeenWith(seen, e), Next(v, e), unused - NumbersOf(e), n);
    FewerUnused(Next(v, e), unused - NumbersOf(e), n, e);
  }

  /** One edit more in the manifest. */
  lemma {:induction false} EditLogged(edits: seq<Edit>, name: Bytes, states: seq<State>, v: Version, p: Pointers,
        e: Edit, unused: set<nat>, n: nat)
    requires (states == [] && |edits| == 1) || Chain(edits, name, states)
    requires Rebuilds(edits, name, v, p) && EditFits(e) && LevelsInRange(e) && Comparable(e, name) &&
      Fresh(edits + [e]) && Complete(e)
    requires Tracked(SeenIn(edits), v, unused, n) && FromCounter(e, v, unused)
    requires e.logNumber.value < n && e.nextFile.value == n
    ensures LeadsTo(edits + [e], name, states + [StateAfter(v, p, e)], Next(v, e), Pointed(p, e.compactPointers),
              e.logNumber.value, e.prevLogNumber.value, n, unused - NumbersOf(e))
    ensures Sensible(Next(v, e))
  {
    hide Gives, Rebuilds, Sensible, Fresh, EditFits, LevelsInRange, Next, Pointed, Chain, Tracked, FromCounter,
      SeenIn, SeenWith, NumbersBelow;
    NextGives(edits, name, v, p, e);
    SoundNext(SeenIn(edits), v, unused, n, e, StateAfter(v, p, e));
    ChainMore(edits, name, states, e, StateAfter(v, p, e));
    SeenMore(edits, e);
    StaysTracked(SeenIn(edits), v, unused, n, e);
    SoundBelow(StateAfter(v, p, e));
  }

  ghost predicate Loggable(e: Edit, name: Bytes, v: Version, unused: set<nat>, n: nat) {
    && EditFits(e) && LevelsInRange(e) && Comparable(e, name) && Complete(e) && FromCounter(e, v, unused)
    && e.logNumber.value < n && e.nextFile.value == n
  }

  lemma {:induction false} CompletedLoggable(e: Edit, name: Bytes, v: Version, unused: set<nat>,
                   logNumber: nat, prevLogNumber: nat, n: nat, lastSequence: nat)
    requires LevelsInRange(e) && Comparable(e, name) && FromCounter(e, v, unused) && logNumber < n
    requires e.logNumber.Some? ==> e.logNumber.value < n
    requires EditFits(Completed(e, logNumber, prevLogNumber, n, lastSequence))
    ensures var e' := Completed(e, logNumber, prevLogNumber, n, lastSequence);
      && Loggable(e', name, v, unused, n) && e'.lastSequence.value == lastSequence
      && e'.compactPointers == e.compactPointers
      && LevelsInRange(e') && FromCounter(e', v, unused) && e'.logNumber.value < n
  {
    hide EditFits;
    SameFiles(e, Completed(e, logNumber, prevLogNumber, n, lastSequence), v, unused);
  }

  /** An edit completed and applied is carried out, and if only its pointers were applied, that is what
      happens without success. */
  lemma {:induction false} EditCarriesOut(s: State, e: Edit, unused: set<nat>)
    requires Sensible(s.files) && Tracked(s.files, s.files, unused, s.nextFile) && FromCounter(e, s.files, unused) &&
      LevelsInRange(e)
    ensures var e' := Completed(e, s.logNumber, s.prevLogNumber, s.nextFile, s.lastSequence);
      var pointed := s.(pointers := Pointed(s.pointers, e.compactPointers));
      && CarriesOut(s, e, e', false, pointed)
      && CarriesOut(s, e, e', true, pointed.(files := Next(s.files, e'), logNumber := e'.logNumber.value,
                                             prevLogNumber := e'.prevLogNumber.value))
  {
    hide Sensible, Tracked, FromCounter, Next, Pointed, HasPointers;
    var e' := Completed(e, s.logNumber, s.prevLogNumber, s.nextFile, s.lastSequence);
    SameFiles(e, e', s.files, unused);
    NextHas(s.files, e', unused, s.nextFile);
    assert HasEdit(s.files, e, Next(s.files, e'));
    PointedHas(s.pointers, e.compactPointers);
  }

  lemma {:induction false} NewManifestLeads(name: Bytes, v: Version, p: Pointers, pointers: Pointers, n: nat,
        unused: set<nat>, e: Edit)
    requires Loggable(e, name, v, unused, n) && EditFits(Snapshot(name, pointers, v)) &&
      pointers == Pointed(p, e.compactPointers)
    requires Sensible(v) && Tracked(v, v, unused, n)
    ensures LeadsTo([Snapshot(name, pointers, v)] + [e], name,
              [State(Next(v, e), pointers, e.logNumber.value, e.prevLogNumber.value, n, e.lastSequence.value)],
              Next(v, e), pointers, e.logNumber.value, e.prevLogNumber.value, n, unused - NumbersOf(e))
  {
    hide EditFits, LevelsInRange, FromCounter, Snapshot, Pointed, Sensible, Tracked, LeadsTo, Next, Rebuilds, Fresh,
      SeenIn, NumbersOf, Chain;
    NewManifest(name, p, pointers, v, e, unused, n);
    EditLogged([Snapshot(name, pointers, v)], name, [], v, pointers, e, unused, n);
    assert [] + [StateAfter(v, pointers, e)] == [StateAfter(v, pointers, e)];
  }

  lemma {:induction false} OldManifestLeads(logged: seq<Edit>, name: Bytes, states: seq<State>, v: Version, p: Pointers,
                   logNumber: nat, prevLogNumber: nat, n: nat, unused: set<nat>, e: Edit)
    requires Loggable(e, name, v, unused, n) && LeadsTo(logged, name, states, v, p, logNumber, prevLogNumber, n, unused)
    ensures LeadsTo(logged + [e], name,
              states + [State(Next(v, e), Pointed(p, e.compactPointers), e.logNumber.value, e.prevLogNumber.value, n,
                  e.lastSequence.value)],
              Next(v, e), Pointed(p, e.compactPointers), e.logNumber.value, e.prevLogNumber.value, n,
                  unused - NumbersOf(e))
  {
    hide EditFits, LevelsInRange, FromCounter, Pointed, Sensible, Tracked, LeadsTo, Next, Rebuilds, Fresh, SeenIn,
      NumbersOf, Chain;
    OldManifest(logged, name, states, v, p, logNumber, prevLogNumber, n, unused, e);
    EditLogged(logged, name, states, v, p, e, unused, n);
  }

  lemma {:induction false} SoundBelow(s: State)
    requires Sound(s)
    ensures NumbersBelow(s.files, s.nextFile)
  {
  }

  /** One turn of recovery. */
  lemma {:induction false} RecoverStep(file: Bytes, at: nat, name: Bytes, r: Replay)
    requires at <= |file| && |r.levels| == NUM_LEVELS
    ensures var l := LogReader.ReadLogical(file, at, None);
      && (l.NoMore? ==> RecoverFrom(file, at, name, r) == if l.dropped == [] then Some(r) else None)
      && (l.Got? && (l.dropped != [] || !Decode(l.record, NO_EDIT).1 ||
          !Comparable(Decode(l.record, NO_EDIT).0, name)) ==>
            RecoverFrom(file, at, name, r) == None)
      && (l.Got? && l.dropped == [] && Decode(l.record, NO_EDIT).1 && Comparable(Decode(l.record, NO_EDIT).0, name) ==>
            LevelsInRange(Decode(l.record, NO_EDIT).0) && at < l.next <= |file|
           
            && RecoverFrom(file, at, name, r) ==
                RecoverFrom(file, l.next, name, ReplayEdit(r, Decode(l.record, NO_EDIT).0)))
  {
    hide LogReader.ReadLogical, Decode, ReplayEdit;
    var l := LogReader.ReadLogical(file, at, None);
    if l.Got? {
      DecodeInRange(l.record, NO_EDIT);
    }
  }

  lemma {:induction false} ReplayStep(r: Replay, e: Edit, levels: seq<LevelState>)
    requires |r.levels| == |levels| == NUM_LEVELS && LevelsInRange(e)
    requires forall l :: 0 <= l < NUM_LEVELS ==> levels[l] == ApplyAt(r.levels[l], l, e)
    ensures ReplayEdit(r, e) == Replay(levels, Pointed(r.pointers, e.compactPointers), Later(r.logNumber, e.logNumber),
                                       Later(r.prevLogNumber, e.prevLogNumber), Later(r.nextFile, e.nextFile),
                                           Later(r.lastSequence, e.lastSequence))
  {
    hide ApplyAt;
    assert ReplayEdit(r, e).levels == levels;
  }

  lemma {:induction false} FinishIs(base: Version, r: Replay)
    requires |r.levels| == NUM_LEVELS
    ensures Finish(base, r).None? <==> r.nextFile.None? || r.logNumber.None? || r.lastSequence.None?
    ensures Finish(base, r).Some? ==>
        Finish(base, r).value == State(SavedLevels(base, r.levels), r.pointers, r.logNumber.value,
      if r.prevLogNumber.Some? then r.prevLogNumber.value else 0, r.nextFile.value, r.lastSequence.value)
  {
  }

  lemma {:induction false} NoneInRange()
    ensures LevelsInRange(NO_EDIT)
  {
  }

  lemma {:induction false} NoLog()
    ensures Log.LogOf(0, Records([])) == []
  {
  }

  lemma {:induction false} SnapshotStarts(pointers: Pointers, files: Version)
    ensures SnapshotPointers(pointers, 0) == [] && SnapshotFiles(files, 0) == []
  {
  }

  lemma {:induction false} FilesStep(files: Version, level: nat)
    requires level < NUM_LEVELS
    ensures SnapshotFiles(files, level + 1) == SnapshotFiles(files, level) + AtLevel(level, files[level])
  {
  }
}
