/** Searches of the skip list that run while the one writer inserts. Every load of a link
    and every store to a link or to the height is a step of its own. */
module SkipListReaders {
  import opened ByteStrings
  import opened Reads
  import opened SkipList

  datatype Writer =
    | Idle
    | Found(key: Bytes, height: nat, prev: seq<Node>)
    | Linking(key: Bytes, height: nat, prev: seq<Node>, level: nat, prepared: bool)

  /** A search for the first key at or after the target (no target: for the end). */
  datatype Reader =
    | Searching(target: Option<Bytes>, x: Node, level: nat)
    | Done(target: Option<Bytes>, last: Node, first: Node)

  datatype State = State(links: seq<Links>, keys: seq<set<Bytes>>, maxHeight: nat, writer: Writer, readers: map<nat,
      Reader>)

  datatype Action =
    | Begin(key: Bytes, height: nat, prev: seq<Node>)
    | Raise
    | Prepare
    | Publish
    | Finish
    | Start(id: nat, target: Option<Bytes>)
    | Look(id: nat)

  ghost predicate Enabled(s: State, a: Action) {
    match a
    case Begin(key, height, prev) =>
      && s.writer.Idle? && |s.keys| == MAX_HEIGHT && |prev| == MAX_HEIGHT && 1 <= height <= MAX_HEIGHT
      && key !in s.keys[0]
      && forall i :: 0 <= i < MAX_HEIGHT && i < s.maxHeight ==> IsPrev(s.keys[i], key, prev[i])
    case Raise => s.writer.Found? && |s.writer.prev| == MAX_HEIGHT
    case Prepare =>
      && s.writer.Linking? && s.writer.level < s.writer.height && !s.writer.prepared
      && s.writer.level < |s.links| && s.writer.level < |s.writer.prev|
      && s.writer.prev[s.writer.level] in s.links[s.writer.level]
    case Publish =>
      && s.writer.Linking? && s.writer.level < s.writer.height && s.writer.prepared
      && s.writer.level < |s.links| && s.writer.level < |s.writer.prev| && s.writer.level < |s.keys|
    case Finish => s.writer.Linking? && s.writer.level == s.writer.height
    case Start(id, target) => (id in s.readers ==> s.readers[id].Done?) && s.maxHeight > 0
    case Look(id) =>
      && id in s.readers && s.readers[id].Searching?
      && s.readers[id].level < |s.links| && s.readers[id].x in s.links[s.readers[id].level]
  }

  /** The levels the new node adds above the old height start from the head. */
  function Raised(prev: seq<Node>, maxHeight: nat, height: nat): seq<Node> {
    seq(|prev|, i requires 0 <= i < |prev| => if maxHeight <= i < height then Head else prev[i])
  }

  ghost function Next(s: State, a: Action): State
    requires Enabled(s, a)
  {
    match a
    case Begin(key, height, prev) => s.(writer := Found(key, height, prev))
    case Raise =>
      var w := s.writer;
      s.(writer := Linking(w.key, w.height, Raised(w.prev, s.maxHeight, w.height), 0, false),
      maxHeight := if w.height > s.maxHeight then w.height else s.maxHeight)
    case Prepare =>
      var w := s.writer;
      var next := s.links[w.level];
      s.(writer := w.(prepared := true), links := s.links[w.level := next[At(w.key) := next[w.prev[w.level]]]])
    case Publish =>
      var w := s.writer;
      s.(writer := w.(level := w.level + 1, prepared := false),
      links := s.links[w.level := s.links[w.level][w.prev[w.level] := At(w.key)]],
      keys := s.keys[w.level := s.keys[w.level] + {w.key}])
    case Finish => s.(writer := Idle)
    case Start(id, target) => s.(readers := s.readers[id := Searching(target, Head, s.maxHeight - 1)])
    case Look(id) =>
      var r := s.readers[id];
      s.(readers := s.readers[id := Moved(r, s.links[r.level][r.x])])
  }

  /** One turn of the search loop, having read `next`. */
  function Moved(r: Reader, next: Node): Reader
    requires r.Searching?
  {
    if KeyIsAfterNode(r.target, next) then r.(x := next)
    else if r.level == 0 then Done(r.target, r.x, next)
    else r.(level := r.level - 1)
  }

  // ----- the invariant

  ghost predicate WriterOk(s: State)
    requires ListOk(s.links, s.keys, s.maxHeight)
  {
    match s.writer
    case Idle => true
    case Found(key, height, prev) =>
      && |prev| == MAX_HEIGHT && 1 <= height <= MAX_HEIGHT && key !in s.keys[0]
      && forall i :: 0 <= i < s.maxHeight ==> IsPrev(s.keys[i], key, prev[i])
    case Linking(key, height, prev, level, prepared) =>
      && |prev| == MAX_HEIGHT && level <= height <= s.maxHeight
      && (forall i :: level <= i < height ==> IsPrev(s.keys[i], key, prev[i]))
      && (level < MAX_HEIGHT ==> key !in s.keys[level])
      && (level > 0 ==> key in s.keys[level - 1])
      && (prepared ==>
          && level < height && At(key) in s.links[level] && prev[level] in s.links[level]
          && s.links[level][At(key)] == s.links[level][prev[level]])
  }

  ghost predicate ReaderOk(keys: seq<set<Bytes>>, r: Reader)
    requires |keys| == MAX_HEIGHT
  {
    r.Searching? ==> r.level < MAX_HEIGHT && On(keys[r.level], r.x) && NodeBefore(r.x, r.target)
  }

  ghost predicate Inv(s: State) {
    && ListOk(s.links, s.keys, s.maxHeight)
    && WriterOk(s)
    && forall id :: id in s.readers ==> ReaderOk(s.keys, s.readers[id])
  }

  ghost predicate Init(s: State) {
    && s.links == seq(MAX_HEIGHT, _ => map[Head := Nil]) && s.keys == seq(MAX_HEIGHT, _ => {})
    && s.maxHeight == 1 && s.writer == Idle && s.readers == map[]
  }

  /** The keys a search can return: those linked into the lowest level. */
  ghost function Stored(s: State): set<Bytes> {
    if s.keys == [] then {} else s.keys[0]
  }

  lemma {:induction false} InitInv(s: State)
    requires Init(s)
    ensures Inv(s)
  {
  }

  /** Every store the writer makes, at whatever point, leaves each level a sorted list and
      a sublist of the one below, and every search on a linked node before its target. */
  lemma {:induction false} StepKeepsInv(s: State, a: Action)
    requires Inv(s) && Enabled(s, a)
    ensures Inv(Next(s, a))
    ensures KeysGrow(s.keys, Next(s, a).keys)
  {
    match a
    case Begin(key, height, prev) =>
    case Raise => RaiseKeepsInv(s);
    case Prepare => PrepareKeepsInv(s);
    case Publish => PublishKeepsInv(s);
    case Finish =>
    case Start(id, target) =>
    case Look(id) => LookKeepsInv(s, id);
  }

  ghost predicate KeysGrow(keys: seq<set<Bytes>>, keys': seq<set<Bytes>>) {
    |keys| == |keys'| && forall i :: 0 <= i < |keys| ==> keys[i] <= keys'[i]
  }

  lemma {:induction false} RaiseKeepsInv(s: State)
    requires Inv(s) && Enabled(s, Raise)
    ensures Inv(Next(s, Raise))
  {
    var w, s' := s.writer, Next(s, Raise);
    forall i | 0 <= i < w.height
      ensures IsPrev(s'.keys[i], w.key, s'.writer.prev[i])
    {
    }
  }

  lemma {:induction false} PrepareKeepsInv(s: State)
    requires Inv(s) && Enabled(s, Prepare)
    ensures Inv(Next(s, Prepare))
  {
    var w := s.writer;
    PrepareKeepsLevel(s.links[w.level], s.keys[w.level], w.key, s.links[w.level][w.prev[w.level]]);
  }

  lemma {:induction false} PublishKeepsInv(s: State)
    requires Inv(s) && Enabled(s, Publish)
    ensures Inv(Next(s, Publish)) && KeysGrow(s.keys, Next(s, Publish).keys)
  {
    var w, s' := s.writer, Next(s, Publish);
    assert IsPrev(s.keys[w.level], w.key, w.prev[w.level]);
    PublishKeepsLevel(s.links[w.level], s.keys[w.level], w.key, w.prev[w.level]);
    assert w.level + 1 < MAX_HEIGHT ==> s.keys[w.level + 1] <= s.keys[w.level];
    assert ListOk(s'.links, s'.keys, s'.maxHeight);
  }

  lemma {:induction false} LookKeepsInv(s: State, id: nat)
    requires Inv(s) && Enabled(s, Look(id))
    ensures Inv(Next(s, Look(id)))
  {
    var r := s.readers[id];
    var n := s.links[r.level][r.x];
    assert LevelOk(s.links[r.level], s.keys[r.level]);
    assert IsNext(s.keys[r.level], r.x, n);
    if !KeyIsAfterNode(r.target, n) && r.level > 0 {
      assert On(s.keys[r.level - 1], r.x);
    }
  }

  // ----- what a search returns

  /** A search never waits: while it runs, its next load is always possible. */
  lemma {:induction false} SearchNeverWaits(s: State, id: nat)
    requires Inv(s) && id in s.readers && s.readers[id].Searching?
    ensures Enabled(s, Look(id))
  {
    var r := s.readers[id];
    assert LevelOk(s.links[r.level], s.keys[r.level]);
  }

  /** The load that ends a search finds exactly the first key at or after the target among
      the keys linked at that moment, and the node before it. */
  lemma {:induction false} SearchIsExact(s: State, id: nat)
    requires Inv(s) && Enabled(s, Look(id)) && Next(s, Look(id)).readers[id].Done?
    ensures var d := Next(s, Look(id)).readers[id];
      && d.target == s.readers[id].target && IsFirstFrom(s.keys[0], d.target, d.first)
      && On(s.keys[0], d.last) && NodeBefore(d.last, d.target) && IsNext(s.keys[0], d.last, d.first)
  {
    var r := s.readers[id];
    assert LevelOk(s.links[0], s.keys[0]);
    assert IsNext(s.keys[0], r.x, s.links[0][r.x]);
  }

  // ----- runs

  datatype Run = First(state: State) | Then(before: Run, action: Action, state: State)

  ghost predicate IsRun(run: Run) {
    match run
    case First(_) => true
    case Then(before, a, s) => IsRun(before) && Enabled(before.state, a) && s == Next(before.state, a)
  }

  ghost function Origin(run: Run): State {
    match run
    case First(s) => s
    case Then(before, _, _) => Origin(before)
  }

  lemma {:induction false} RunKeepsInv(run: Run)
    requires IsRun(run) && Inv(Origin(run))
    ensures Inv(run.state) && KeysGrow(Origin(run).keys, run.state.keys)
  {
    match run
    case First(s) =>
    case Then(before, a, s) =>
      RunKeepsInv(before);
      StepKeepsInv(before.state, a);
  }

  /** The loads reader `id` makes in the run. */
  ghost function Looks(run: Run, id: nat): nat {
    match run
    case First(_) => 0
    case Then(before, a, _) => Looks(before, id) + if a == Look(id) then 1 else 0
  }

  /** The store that links the new node into the lowest level. */
  ghost predicate Enters(before: Run, a: Action) {
    a == Publish && before.state.writer.Linking? && before.state.writer.level == 0
  }

  /** How many keys the run links into the lowest level, and which. */
  ghost function Insertions(run: Run): nat {
    match run
    case First(_) => 0
    case Then(before, a, _) =>
      Insertions(before) + if Enters(before, a) then 1 else 0
  }

  /** No search of this reader begins during the run. */
  ghost predicate OneSearch(run: Run, id: nat) {
    match run
    case First(_) => true
    case Then(before, a, _) => OneSearch(before, id) && !(a.Start? && a.id == id)
  }

  ghost function Inserted(run: Run): set<Bytes> {
    match run
    case First(_) => {}
    case Then(before, a, _) => Inserted(before) + if Enters(before, a) then {before.state.writer.key} else {}
  }

  /** From the empty list, whatever readers do meanwhile: at every moment the list holds exactly the
      keys inserted so far, each insertion a new key, and the invariant of readers and writer. */
  lemma {:induction false} RunFromEmpty(run: Run)
    requires IsRun(run) && Init(Origin(run))
    ensures Inv(run.state) && Stored(run.state) == Inserted(run) && |Inserted(run)| == Insertions(run)
  {
    match run
    case First(s) =>
      InitInv(s);
    case Then(before, a, s) =>
      RunFromEmpty(before);
      StepKeepsInv(before.state, a);
      StoredGrows(before, a);
      hide Inv, Next, Stored, Enabled, Enters;
  }

  lemma {:induction false} StoredGrows(before: Run, a: Action)
    requires Inv(before.state) && Enabled(before.state, a)
    ensures Enters(before, a) ==> before.state.writer.key !in Stored(before.state)
    ensures Stored(Next(before.state, a)) == Stored(before.state) + if Enters(before, a)
        then {before.state.writer.key} else {}
  {
  }

  /** What a search still has to do at most: one level at a time, one key at a time. */
  ghost function Left(s: State, id: nat): nat {
    if id in s.readers && s.readers[id].Searching? && |s.keys| > 0 then
      1 + s.readers[id].level + |Ahead(s.keys[0], s.readers[id].x, s.readers[id].target)|
    else 0
  }

  lemma {:induction false} LookMakesProgress(s: State, id: nat)
    requires Inv(s) && Enabled(s, Look(id))
    ensures Left(Next(s, Look(id)), id) < Left(s, id)
  {
    var r := s.readers[id];
    if KeyIsAfterNode(r.target, s.links[r.level][r.x]) {
      MovesOn(s.links, s.keys, s.maxHeight, r.level, r.x, r.target);
    }
  }

  lemma {:induction false} PublishCostsOne(s: State, id: nat)
    requires Inv(s) && Enabled(s, Publish)
    ensures Left(Next(s, Publish), id) <= Left(s, id) + if s.writer.level == 0 then 1 else 0
  {
    var s' := Next(s, Publish);
    if id in s.readers && s.readers[id].Searching? && s.writer.level == 0 {
      var r := s.readers[id];
      var a, b := Ahead(s.keys[0], r.x, r.target), Ahead(s'.keys[0], r.x, r.target);
      assert b <= a + {s.writer.key};
      SubsetSize(b, a + {s.writer.key});
    }
  }

  /** A search ends whatever the writer does: it makes no more loads than the levels and keys
      before it when it began, plus one for each key inserted meanwhile. */
  lemma {:induction false} SearchTerminates(run: Run, id: nat)
    requires IsRun(run) && Inv(Origin(run)) && OneSearch(run, id)
    ensures Looks(run, id) + Left(run.state, id) <= Left(Origin(run), id) + Insertions(run)
  {
    match run
    case First(s) =>
    case Then(before, a, s) =>
      SearchTerminates(before, id);
      RunKeepsInv(before);
      if a == Look(id) {
        LookMakesProgress(before.state, id);
      } else if a == Publish {
        PublishCostsOne(before.state, id);
      }
  }

  /** A search that starts in the first state and ends in the last misses no key that was
      there when it started, and returns only a key that is there when it ends. */
  lemma {:induction false} SearchSeesEarlierKeys(run: Run, id: nat, k: Bytes)
    requires IsRun(run) && Inv(Origin(run)) && run.Then? && run.action == Look(id)
    requires id in run.state.readers && run.state.readers[id].Done?
    requires !NodeBefore(At(k), run.state.readers[id].target)
    requires k in Stored(Origin(run))
    ensures var n := run.state.readers[id].first;
      n.At? && n.key in Stored(run.state) && Rank(n.key) <= Rank(k)
  {
    RunKeepsInv(run.before);
    SearchIsExact(run.before.state, id);
    assert k in run.before.state.keys[0];
  }
}
