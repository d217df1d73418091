/** One shard of the cache: a table and a list of the same entries, with references and charges. */
module LruCache {
  import opened ByteStrings
  import opened Table = HandleTable

  /** What the cache is about: the listed entries, oldest first; the handles callers hold; the
      entries not yet freed; and the entries whose deleter has run, in order. */
  datatype State = State(ring: seq<Ptr>, handles: multiset<Ptr>, live: set<Ptr>, deleted: seq<Ptr>)

  const EMPTY := State([], multiset{}, {}, [])

  // ----- the operations on states

  ghost function Without(ring: seq<Ptr>, p: Ptr): seq<Ptr> {
    if ring == [] then [] else if ring[0] == p then ring[1..] else [ring[0]] + Without(ring[1..], p)
  }

  /** The listed entry for a key. */
  ghost function FindFor(ring: seq<Ptr>, key: Bytes, hash: nat): Ptr {
    if ring == [] then Null else if IsFor(ring[0], key, hash) then ring[0] else FindFor(ring[1..], key, hash)
  }

  /** An entry that nobody refers to any more is deleted. */
  ghost function Settle(s: State, p: Ptr): State {
    if p in s.ring || p in s.handles then s else s.(live := s.live - {p}, deleted := s.deleted + [p])
  }

  ghost function Unlisted(s: State, p: Ptr): State {
    Settle(s.(ring := Without(s.ring, p)), p)
  }

  ghost function Released(s: State, p: Ptr): State {
    Settle(s.(handles := s.handles - multiset{p}), p)
  }

  ghost function Touched(s: State, p: Ptr): State {
    s.(ring := Without(s.ring, p) + [p], handles := s.handles + multiset{p})
  }

  ghost function LookedUp(s: State, key: Bytes, hash: nat): State {
    var p := FindFor(s.ring, key, hash);
    if p == Null then s else Touched(s, p)
  }

  ghost function Erased(s: State, key: Bytes, hash: nat): State {
    var p := FindFor(s.ring, key, hash);
    if p == Null then s else Unlisted(s, p)
  }

  ghost function Added(s: State, p: Ptr): State {
    State(s.ring + [p], s.handles + multiset{p}, s.live + {p}, s.deleted)
  }

  /** Oldest first, as long as the charges of all entries are over the capacity. */
  ghost function Evicted(s: State, capacity: nat): State
    decreases |s.ring|
  {
    if Charges(s.live) > capacity && s.ring != [] then
      WithoutRemoves(s.ring, s.ring[0]);
      Evicted(Unlisted(s, s.ring[0]), capacity)
    else
      s
  }

  /** The new entry in, the entry for the same key out. */
  ghost function Replaced(s: State, p: Ptr): State
    requires p.Node?
  {
    var old0 := FindFor(s.ring, p.key, p.hash);
    if old0 == Null then Added(s, p) else Unlisted(Added(s, p), old0)
  }

  ghost function Inserted(s: State, p: Ptr, capacity: nat): State
    requires p.Node?
  {
    Evicted(Replaced(s, p), capacity)
  }

  function Charge(p: Ptr): nat {
    if p.Node? then p.charge else 0
  }

  ghost function Charges(ps: set<Ptr>): nat {
    if ps == {} then 0 else
      var p :| p in ps;
      Charge(p) + Charges(ps - {p})
  }

  lemma {:induction false} ChargesWithout(ps: set<Ptr>, p: Ptr)
    requires p in ps
    ensures Charges(ps) == Charge(p) + Charges(ps - {p})
    decreases ps
  {
    var q :| q in ps && Charges(ps) == Charge(q) + Charges(ps - {q});
    if q != p {
      ChargesWithout(ps - {q}, p);
      ChargesWithout(ps - {p}, q);
      assert ps - {q} - {p} == ps - {p} - {q};
    }
  }

  // ----- what holds of every state

  ghost predicate NoRepeats(c: seq<Ptr>) {
    forall k, l :: 0 <= k < l < |c| ==> c[k] != c[l]
  }

  ghost predicate UniqueKeys(ring: seq<Ptr>) {
    forall p, q :: p in ring && q in ring && p.Node? && IsFor(q, p.key, p.hash) ==> p == q
  }

  ghost predicate Ok(s: State) {
    UniqueKeys(s.ring) && Sound(s)
  }

  /** An entry is live as long as it is listed or held, and its deleter runs once, after that. */
  ghost predicate Sound(s: State) {
    && NoRepeats(s.ring)
    && (forall p :: p in s.ring || p in s.handles <==> p in s.live)
    && (forall p :: p in s.live ==> p.Node?)
    && NoRepeats(s.deleted) && (forall p :: p in s.deleted ==> p !in s.live)
  }

  lemma {:induction false} WithoutRemoves(ring: seq<Ptr>, p: Ptr)
    ensures p !in ring ==> Without(ring, p) == ring
    ensures p in ring ==> |Without(ring, p)| == |ring| - 1
    ensures forall q :: q in Without(ring, p) ==> q in ring
    ensures forall q :: q in ring && q != p ==> q in Without(ring, p)
  {
    if ring != [] && ring[0] != p {
      WithoutRemoves(ring[1..], p);
      assert ring == [ring[0]] + ring[1..];
    }
  }

  /** Without the only occurrence of the entry, at its place. */
  lemma {:induction false} WithoutPlace(ring: seq<Ptr>, k: nat)
    requires NoRepeats(ring) && k < |ring|
    ensures Without(ring, ring[k]) == ring[..k] + ring[k + 1..]
  {
    if k > 0 {
      assert ring[0] != ring[k] && ring[1..][k - 1] == ring[k];
      WithoutPlace(ring[1..], k - 1);
      assert [ring[0]] + (ring[1..][..k - 1] + ring[1..][k..]) == ring[..k] + ring[k + 1..];
    }
  }

  lemma {:induction false} WithoutKeeps(ring: seq<Ptr>, p: Ptr)
    requires NoRepeats(ring)
    ensures NoRepeats(Without(ring, p)) && p !in Without(ring, p)
  {
    WithoutRemoves(ring, p);
    if p in ring {
      var k :| 0 <= k < |ring| && ring[k] == p;
      WithoutPlace(ring, k);
    }
  }

  lemma {:induction false} FindForMeans(ring: seq<Ptr>, key: Bytes, hash: nat)
    ensures var p := FindFor(ring, key, hash);
      if p == Null then forall q :: q in ring ==> !IsFor(q, key, hash) else p in ring && IsFor(p, key, hash)
  {
    if ring != [] && !IsFor(ring[0], key, hash) {
      FindForMeans(ring[1..], key, hash);
    }
  }

  lemma {:induction false} SettleOk(s: State, p: Ptr)
    requires NoRepeats(s.ring) && UniqueKeys(s.ring) && p in s.live
    requires forall q :: q in s.ring || q in s.handles ==> q in s.live
    requires forall q :: q in s.live && q != p ==> q in s.ring || q in s.handles
    requires forall q :: q in s.live ==> q.Node?
    requires NoRepeats(s.deleted) && (forall q :: q in s.deleted ==> q !in s.live)
    ensures Ok(Settle(s, p))
  {
  }

  lemma {:induction false} UnlistedOk(s: State, p: Ptr)
    requires Ok(s) && p in s.ring
    ensures Ok(Unlisted(s, p))
  {
    WithoutKeeps(s.ring, p);
    WithoutRemoves(s.ring, p);
    SettleOk(s.(ring := Without(s.ring, p)), p);
  }

  lemma {:induction false} ReleasedOk(s: State, p: Ptr)
    requires Ok(s) && p in s.handles
    ensures Ok(Released(s, p))
  {
    SettleOk(s.(handles := s.handles - multiset{p}), p);
  }

  lemma {:induction false} TouchedOk(s: State, p: Ptr)
    requires Ok(s) && p in s.ring
    ensures Ok(Touched(s, p))
  {
    WithoutKeeps(s.ring, p);
    WithoutRemoves(s.ring, p);
  }

  lemma {:induction false} ReplacedOk(s: State, p: Ptr)
    requires Ok(s) && p.Node? && p !in s.live && p !in s.deleted
    ensures Ok(Replaced(s, p))
  {
    hide IsFor;
    var added := Added(s, p);
    var old0 := FindFor(s.ring, p.key, p.hash);
    FindForMeans(s.ring, p.key, p.hash);
    AddedUnique(s.ring, p, old0);
    assert NoRepeats(added.ring);
    if old0 != Null {
      hide UniqueKeys;
      var ring := Without(added.ring, old0);
      WithoutKeeps(added.ring, old0);
      WithoutRemoves(added.ring, old0);
      SettleOk(added.(ring := ring), old0);
    }
  }

  lemma {:induction false} AddedUnique(ring: seq<Ptr>, p: Ptr, old0: Ptr)
    requires UniqueKeys(ring) && NoRepeats(ring) && p.Node? && p !in ring && old0 == FindFor(ring, p.key, p.hash)
    requires forall q :: q in ring ==> q.Node?
    ensures old0 == Null ==> UniqueKeys(ring + [p])
    ensures old0 != Null ==> UniqueKeys(Without(ring + [p], old0))
  {
    FindForMeans(ring, p.key, p.hash);
    if old0 != Null {
      assert NoRepeats(ring + [p]);
      WithoutKeeps(ring + [p], old0);
      WithoutRemoves(ring + [p], old0);
    }
  }

  lemma {:induction false} EvictedOk(s: State, capacity: nat)
    requires Ok(s)
    ensures Ok(Evicted(s, capacity))
    ensures Charges(Evicted(s, capacity).live) <= capacity || Evicted(s, capacity).ring == []
    decreases |s.ring|
  {
    if Charges(s.live) > capacity && s.ring != [] {
      WithoutRemoves(s.ring, s.ring[0]);
      UnlistedOk(s, s.ring[0]);
      EvictedOk(Unlisted(s, s.ring[0]), capacity);
    }
  }

  /** Eviction frees the shortest run of oldest entries that brings the charges down to the
      capacity, or takes the whole list; entries that callers hold stay alive. */
  lemma {:induction false} EvictsShortestRun(s: State, capacity: nat) returns (n: nat)
    requires Ok(s)
    ensures n <= |s.ring|
    ensures Evicted(s, capacity).ring == s.ring[n..] && Evicted(s, capacity).handles == s.handles
    ensures Evicted(s, capacity).live == s.live - Unheld(s, n)
    ensures forall m :: 0 <= m < n ==> Charges(s.live - Unheld(s, m)) > capacity
    ensures n == |s.ring| || Charges(s.live - Unheld(s, n)) <= capacity
    decreases |s.ring|
  {
    assert s.live - Unheld(s, 0) == s.live;
    if Charges(s.live) > capacity && s.ring != [] {
      var s' := Unlisted(s, s.ring[0]);
      UnlistedOk(s, s.ring[0]);
      assert s'.ring == s.ring[1..];
      var n' := EvictsShortestRun(s', capacity);
      n := n' + 1;
      forall m: nat | m <= |s'.ring|
        ensures s'.live - Unheld(s', m) == s.live - Unheld(s, m + 1)
      {
        UnheldStep(s, m);
      }
      forall m | 0 <= m < n
        ensures Charges(s.live - Unheld(s, m)) > capacity
      {
        if m > 0 {
          assert s'.live - Unheld(s', m - 1) == s.live - Unheld(s, m);
        }
      }
    } else {
      n := 0;
    }
  }

  /** Of the oldest entries those no caller holds. */
  ghost function Unheld(s: State, n: nat): set<Ptr>
    requires n <= |s.ring|
  {
    set p | p in s.ring[..n] && p !in s.handles
  }

  lemma {:induction false} UnheldStep(s: State, m: nat)
    requires Ok(s) && s.ring != [] && m < |s.ring|
    ensures var s' := Unlisted(s, s.ring[0]); s'.ring == s.ring[1..] && s'.live - Unheld(s', m) == s.live - Unheld(s, m + 1)
  {
    var s' := Unlisted(s, s.ring[0]);
    assert s.ring[..m + 1] == [s.ring[0]] + s'.ring[..m];
    assert s.ring[0] !in s'.ring;
  }

  // ----- what each operation does, entry by entry

  ghost predicate NoneListed(ring: seq<Ptr>, key: Bytes, hash: nat) {
    forall p :: p in ring ==> !IsFor(p, key, hash)
  }

  /** The entry at this place is out of the list and all others stay in their order; it is deleted at
      once if no caller holds it, and stays live otherwise. */
  ghost predicate TakesOut(s: State, s': State, i: nat)
    requires i < |s.ring|
  {
    var p := s.ring[i];
    && s'.ring == s.ring[..i] + s.ring[i + 1..] && s'.handles == s.handles
    && if p in s.handles then s'.live == s.live && s'.deleted == s.deleted
       else s'.live == s.live - {p} && s'.deleted == s.deleted + [p]
  }

  /** Whatever was listed for the key is taken out. */
  ghost predicate TakesOutKey(s: State, s': State, key: Bytes, hash: nat) {
    && NoneListed(s'.ring, key, hash)
    && (NoneListed(s.ring, key, hash) ==> s' == s)
    && forall i :: 0 <= i < |s.ring| && IsFor(s.ring[i], key, hash) ==> TakesOut(s, s', i)
  }

  /** Nothing is listed for the key, or its entry is handed out and becomes the newest. */
  ghost predicate HandsOut(s: State, s': State, key: Bytes, hash: nat, p: Ptr) {
    if p == Null then NoneListed(s.ring, key, hash) && s' == s
    else
      && p in s.ring && IsFor(p, key, hash)
      && s'.handles == s.handles + multiset{p} && s'.live == s.live && s'.deleted == s.deleted
      && forall i :: 0 <= i < |s.ring| && s.ring[i] == p ==> s'.ring == s.ring[..i] + s.ring[i + 1..] + [p]
  }

  /** A handle fewer; the entry is deleted if that was the last one and it is not listed. */
  ghost predicate GivesBack(s: State, s': State, p: Ptr) {
    && s'.ring == s.ring && s'.handles == s.handles - multiset{p}
    && if p in s.ring || s.handles[p] > 1 then s'.live == s.live && s'.deleted == s.deleted
       else s'.live == s.live - {p} && s'.deleted == s.deleted + [p]
  }

  /** The new entry is listed as the newest and held once, and the entry for the same key is taken out. */
  ghost predicate PutsIn(s: State, s': State, p: Ptr)
    requires p.Node?
  {
    var more := State(s.ring + [p], s.handles + multiset{p}, s.live + {p}, s.deleted);
    && (NoneListed(s.ring, p.key, p.hash) ==> s' == more)
    && forall i :: 0 <= i < |s.ring| && IsFor(s.ring[i], p.key, p.hash) ==> TakesOut(more, s', i)
  }

  /** The `n` oldest entries are out of the list, and of these the ones no caller holds are deleted; with
      fewer the charges would be over the capacity, and now they are not unless the list is empty. */
  ghost predicate Evicts(s: State, s': State, capacity: nat, n: nat) {
    && n <= |s.ring| && s'.ring == s.ring[n..] && s'.handles == s.handles
    && s'.live == s.live - Unheld(s, n)
    && s.deleted <= s'.deleted && (forall p :: p in s'.deleted <==> p in s.deleted || p in Unheld(s, n))
    && (forall m :: 0 <= m < n ==> Charges(s.live - Unheld(s, m)) > capacity)
    && (n == |s.ring| || Charges(s'.live) <= capacity)
  }

  ghost predicate PutsInAndEvicts(s: State, s': State, p: Ptr, capacity: nat)
    requires p.Node?
  {
    exists mid: State, n: nat :: PutsIn(s, mid, p) && Evicts(mid, s', capacity, n)
  }

  lemma {:induction false} UnlistedTakesOut(s: State, i: nat)
    requires Ok(s) && i < |s.ring|
    ensures TakesOut(s, Unlisted(s, s.ring[i]), i)
  {
    WithoutPlace(s.ring, i);
    WithoutKeeps(s.ring, s.ring[i]);
  }

  lemma {:induction false} ErasedTakesOut(s: State, key: Bytes, hash: nat)
    requires Ok(s)
    ensures TakesOutKey(s, Erased(s, key, hash), key, hash) && NoneListed(Erased(s, key, hash).ring, key, hash)
  {
    var p := FindFor(s.ring, key, hash);
    FindForMeans(s.ring, key, hash);
    if p != Null {
      WithoutKeeps(s.ring, p);
      WithoutRemoves(s.ring, p);
      forall i | 0 <= i < |s.ring| && IsFor(s.ring[i], key, hash)
        ensures TakesOut(s, Erased(s, key, hash), i)
      {
        UnlistedTakesOut(s, i);
      }
    }
  }

  lemma {:induction false} LookedUpHandsOut(s: State, key: Bytes, hash: nat)
    requires Ok(s)
    ensures HandsOut(s, LookedUp(s, key, hash), key, hash, FindFor(s.ring, key, hash))
  {
    var p := FindFor(s.ring, key, hash);
    FindForMeans(s.ring, key, hash);
    forall i | 0 <= i < |s.ring| && s.ring[i] == p
      ensures Without(s.ring, p) == s.ring[..i] + s.ring[i + 1..]
    {
      WithoutPlace(s.ring, i);
    }
  }

  lemma {:induction false} ReplacedPutsIn(s: State, p: Ptr)
    requires Ok(s) && p.Node? && p !in s.live && p !in s.deleted
    ensures PutsIn(s, Replaced(s, p), p)
  {
    var more, old0 := Added(s, p), FindFor(s.ring, p.key, p.hash);
    FindForMeans(s.ring, p.key, p.hash);
    assert NoRepeats(more.ring);
    forall i | 0 <= i < |s.ring| && IsFor(s.ring[i], p.key, p.hash)
      ensures TakesOut(more, Replaced(s, p), i)
    {
      assert more.ring[i] == s.ring[i] == old0;
      WithoutPlace(more.ring, i);
      WithoutKeeps(more.ring, old0);
    }
  }

  lemma {:induction false} EvictedEvicts(s: State, capacity: nat)
    requires Ok(s)
    ensures exists n: nat :: Evicts(s, Evicted(s, capacity), capacity, n)
  {
    hide Ok, Evicted, Charges, Unheld;
    var n := EvictsShortestRun(s, capacity);
    EvictedDeletes(s, capacity, n);
    assert Evicts(s, Evicted(s, capacity), capacity, n);
  }

  lemma {:induction false} EvictedDeletes(s: State, capacity: nat, n: nat)
    requires Ok(s) && n <= |s.ring| && Evicted(s, capacity).live == s.live - Unheld(s, n)
    ensures var s' := Evicted(s, capacity);
      s.deleted <= s'.deleted && forall p :: p in s'.deleted <==> p in s.deleted || p in Unheld(s, n)
  {
    var s' := Evicted(s, capacity);
    EvictedKnown(s, capacity);
    EvictedOk(s, capacity);
    EvictedAppends(s, capacity);
    forall p
      ensures p in s'.deleted <==> p in s.deleted || p in Unheld(s, n)
    {
      assert p in Known(s') <==> p in Known(s);
    }
  }

  lemma {:induction false} EvictedAppends(s: State, capacity: nat)
    ensures s.deleted <= Evicted(s, capacity).deleted
    decreases |s.ring|
  {
    if Charges(s.live) > capacity && s.ring != [] {
      WithoutRemoves(s.ring, s.ring[0]);
      EvictedAppends(Unlisted(s, s.ring[0]), capacity);
    }
  }

  lemma {:induction false} InsertedPutsIn(s: State, p: Ptr, capacity: nat)
    requires Ok(s) && p.Node? && p !in s.live && p !in s.deleted
    ensures PutsInAndEvicts(s, Inserted(s, p, capacity), p, capacity)
  {
    hide Ok, PutsIn, Evicts, Evicted, Replaced;
    ReplacedOk(s, p);
    ReplacedPutsIn(s, p);
    EvictedEvicts(Replaced(s, p), capacity);
  }

  // ----- runs

  datatype Op = Insert(p: Ptr) | Lookup(key: Bytes, hash: nat) | Release(p: Ptr) | Erase(key: Bytes, hash: nat)

  /** Entries are allocated afresh, and callers release only what they hold. */
  ghost predicate Enabled(s: State, op: Op) {
    match op
    case Insert(p) => p.Node? && p !in s.live && p !in s.deleted
    case Release(p) => p in s.handles
    case Lookup(_, _) => true
    case Erase(_, _) => true
  }

  ghost function Step(s: State, op: Op, capacity: nat): State
    requires Enabled(s, op)
  {
    match op
    case Insert(p) => Inserted(s, p, capacity)
    case Lookup(key, hash) => LookedUp(s, key, hash)
    case Release(p) => Released(s, p)
    case Erase(key, hash) => Erased(s, key, hash)
  }

  ghost predicate Legal(ops: seq<Op>, capacity: nat)
    decreases |ops|, 0
  {
    ops == [] || (var before := ops[..|ops| - 1]; Legal(before, capacity) && Enabled(Run(before, capacity), ops[|ops| - 1]))
  }

  ghost function Run(ops: seq<Op>, capacity: nat): State
    requires Legal(ops, capacity)
    decreases |ops|, 1
  {
    if ops == [] then EMPTY else Step(Run(ops[..|ops| - 1], capacity), ops[|ops| - 1], capacity)
  }

  ghost function InsertedBy(ops: seq<Op>): set<Ptr> {
    set op | op in ops && op.Insert? :: op.p
  }

  ghost function Known(s: State): set<Ptr> {
    s.live + set p | p in s.deleted
  }

  lemma {:induction false} UnlistedKnown(s: State, p: Ptr)
    requires p in s.live
    ensures Known(Unlisted(s, p)) == Known(s) && Unlisted(s, p).handles == s.handles
  {
  }

  lemma {:induction false} EvictedKnown(s: State, capacity: nat)
    requires Ok(s)
    ensures Known(Evicted(s, capacity)) == Known(s)
    decreases |s.ring|
  {
    if Charges(s.live) > capacity && s.ring != [] {
      WithoutRemoves(s.ring, s.ring[0]);
      UnlistedOk(s, s.ring[0]);
      UnlistedKnown(s, s.ring[0]);
      EvictedKnown(Unlisted(s, s.ring[0]), capacity);
    }
  }

  lemma {:induction false} StepOk(s: State, op: Op, capacity: nat)
    requires Ok(s) && Enabled(s, op)
    ensures Ok(Step(s, op, capacity))
    ensures Known(Step(s, op, capacity)) == Known(s) + (if op.Insert? then {op.p} else {})
  {
    hide Ok, Evicted, Without, FindFor, Charges;
    match op
    case Insert(p) =>
      ReplacedOk(s, p);
      ReplacedKnown(s, p);
      EvictedOk(Replaced(s, p), capacity);
      EvictedKnown(Replaced(s, p), capacity);
    case Lookup(key, hash) =>
      FindForMeans(s.ring, key, hash);
      if FindFor(s.ring, key, hash) != Null {
        TouchedOk(s, FindFor(s.ring, key, hash));
      }
    case Release(p) =>
      ReleasedOk(s, p);
      HandleLive(s, p);
    case Erase(key, hash) =>
      FindForMeans(s.ring, key, hash);
      var p := FindFor(s.ring, key, hash);
      if p != Null {
        HandleLive(s, p);
        UnlistedOk(s, p);
        UnlistedKnown(s, p);
      }
  }

  lemma {:induction false} HandleLive(s: State, p: Ptr)
    requires Ok(s) && (p in s.handles || p in s.ring)
    ensures p in s.live && p !in s.deleted
  {
  }

  lemma {:induction false} ReplacedKnown(s: State, p: Ptr)
    requires Ok(s) && p.Node?
    ensures Known(Replaced(s, p)) == Known(s) + {p}
  {
    var old0 := FindFor(s.ring, p.key, p.hash);
    FindForMeans(s.ring, p.key, p.hash);
    if old0 != Null {
      UnlistedKnown(Added(s, p), old0);
    }
  }

  /** In every run the entries inserted are, without loss, the live ones and the deleted ones; a
      deleter has run at most once, never for an entry that is listed or held, and always for
      one that is neither. */
  lemma {:induction false} RunOk(ops: seq<Op>, capacity: nat)
    requires Legal(ops, capacity)
    ensures Ok(Run(ops, capacity))
    ensures Known(Run(ops, capacity)) == InsertedBy(ops)
  {
    if ops != [] {
      var before, op := ops[..|ops| - 1], ops[|ops| - 1];
      assert ops == before + [op];
      RunOk(before, capacity);
      StepOk(Run(before, capacity), op, capacity);
      assert InsertedBy(ops) == InsertedBy(before) + (if op.Insert? then {op.p} else {});
    }
  }

  /** After an insertion the charges of all entries are within the capacity, or nothing is listed. */
  lemma {:induction false} InsertBounds(ops: seq<Op>, capacity: nat)
    requires Legal(ops, capacity) && ops != [] && ops[|ops| - 1].Insert?
    ensures var s := Run(ops, capacity); Charges(s.live) <= capacity || s.ring == []
  {
    var before, p := ops[..|ops| - 1], ops[|ops| - 1].p;
    RunOk(before, capacity);
    var s := Run(before, capacity);
    ReplacedOk(s, p);
    EvictedOk(Replaced(s, p), capacity);
    assert Run(ops, capacity) == Evicted(Replaced(s, p), capacity);
  }

  // ----- least recently used

  /** The entry an operation uses: the one inserted, or the one found. */
  ghost function UsedBy(s: State, op: Op): Ptr {
    match op
    case Insert(p) => p
    case Lookup(key, hash) => FindFor(s.ring, key, hash)
    case Release(_) => Null
    case Erase(_, _) => Null
  }

  /** When the entry was last used. */
  ghost function LastUse(ops: seq<Op>, capacity: nat, p: Ptr): int
    requires Legal(ops, capacity)
  {
    if ops == [] then -1 else
      var before := ops[..|ops| - 1];
      if UsedBy(Run(before, capacity), ops[|ops| - 1]) == p then |before| else LastUse(before, capacity, p)
  }

  lemma {:induction false} LastUseBound(ops: seq<Op>, capacity: nat, p: Ptr)
    requires Legal(ops, capacity)
    ensures LastUse(ops, capacity, p) < |ops|
  {
    if ops != [] {
      LastUseBound(ops[..|ops| - 1], capacity, p);
    }
  }

  ghost predicate ByLastUse(ring: seq<Ptr>, ops: seq<Op>, capacity: nat)
    requires Legal(ops, capacity)
  {
    forall k, l :: 0 <= k < l < |ring| ==> LastUse(ops, capacity, ring[k]) < LastUse(ops, capacity, ring[l])
  }

  lemma {:induction false} WithoutByLastUse(ring: seq<Ptr>, p: Ptr, ops: seq<Op>, capacity: nat)
    requires Legal(ops, capacity) && NoRepeats(ring) && ByLastUse(ring, ops, capacity)
    ensures ByLastUse(Without(ring, p), ops, capacity)
  {
    hide LastUse, Run, Legal, Without;
    WithoutRemoves(ring, p);
    if p in ring {
      var k :| 0 <= k < |ring| && ring[k] == p;
      WithoutPlace(ring, k);
    }
  }

  lemma {:induction false} EvictedByLastUse(s: State, ops: seq<Op>, capacity: nat)
    requires Legal(ops, capacity) && Ok(s) && ByLastUse(s.ring, ops, capacity)
    ensures ByLastUse(Evicted(s, capacity).ring, ops, capacity)
    decreases |s.ring|
  {
    if Charges(s.live) > capacity && s.ring != [] {
      hide ByLastUse;
      WithoutRemoves(s.ring, s.ring[0]);
      UnlistedOk(s, s.ring[0]);
      WithoutByLastUse(s.ring, s.ring[0], ops, capacity);
      EvictedByLastUse(Unlisted(s, s.ring[0]), ops, capacity);
    }
  }

  /** Entries the last operation did not use keep their order, and the one it used is newest. */
  lemma {:induction false} UseIsNewest(ring: seq<Ptr>, p: Ptr, ops: seq<Op>, capacity: nat)
    requires Legal(ops, capacity) && ops != []
    requires var before := ops[..|ops| - 1]; ByLastUse(ring, before, capacity) && p == UsedBy(Run(before, capacity), ops[|ops| - 1])
    requires p !in ring && Null !in ring
    ensures ByLastUse(ring, ops, capacity) && ByLastUse(ring + [p], ops, capacity)
  {
    var before := ops[..|ops| - 1];
    forall q | q in ring
      ensures LastUse(ops, capacity, q) == LastUse(before, capacity, q) < |before|
    {
      LastUseBound(before, capacity, q);
    }
    assert LastUse(ops, capacity, p) == |before|;
  }

  /** In every run the list is in the order of last use, so what is evicted is least recently used. */
  lemma {:induction false} ListedByLastUse(ops: seq<Op>, capacity: nat)
    requires Legal(ops, capacity)
    ensures ByLastUse(Run(ops, capacity).ring, ops, capacity)
  {
    if ops != [] {
      var before, op := ops[..|ops| - 1], ops[|ops| - 1];
      var s := Run(before, capacity);
      RunOk(before, capacity);
      ListedByLastUse(before, capacity);
      StepByLastUse(s, ops, capacity);
    }
  }

  lemma {:induction false} StepByLastUse(s: State, ops: seq<Op>, capacity: nat)
    requires Legal(ops, capacity) && ops != []
    requires var before := ops[..|ops| - 1]; s == Run(before, capacity) && Ok(s) && ByLastUse(s.ring, before, capacity)
    ensures ByLastUse(Run(ops, capacity).ring, ops, capacity)
  {
    hide ByLastUse, Evicted, Charges;
    var before, op := ops[..|ops| - 1], ops[|ops| - 1];
    match op
    case Insert(p) =>
      UseIsNewest(s.ring, p, ops, capacity);
      var old0 := FindFor(s.ring, p.key, p.hash);
      FindForMeans(s.ring, p.key, p.hash);
      ReplacedOk(s, p);
      assert NoRepeats(s.ring + [p]);
      WithoutByLastUse(s.ring + [p], old0, ops, capacity);
      EvictedByLastUse(Replaced(s, p), ops, capacity);
    case Lookup(key, hash) =>
      var p := FindFor(s.ring, key, hash);
      FindForMeans(s.ring, key, hash);
      if p == Null {
        UseIsNewest(s.ring, p, ops, capacity);
      } else {
        WithoutByLastUse(s.ring, p, before, capacity);
        WithoutKeeps(s.ring, p);
        WithoutRemoves(s.ring, p);
        UseIsNewest(Without(s.ring, p), p, ops, capacity);
      }
    case Release(_) =>
      UseIsNewest(s.ring, Null, ops, capacity);
    case Erase(key, hash) =>
      UseIsNewest(s.ring, Null, ops, capacity);
      FindForMeans(s.ring, key, hash);
      WithoutByLastUse(s.ring, FindFor(s.ring, key, hash), ops, capacity);
  }

  // ----- the circular list

  /** The entries between two mentions of the list head. */
  ghost function Circle(ring: seq<Ptr>): seq<Ptr> {
    [ListHead] + ring + [ListHead]
  }

  ghost predicate Joined(next: map<Ptr, Ptr>, prev: map<Ptr, Ptr>, a: Ptr, b: Ptr) {
    a in next && next[a] == b && b in prev && prev[b] == a
  }

  /** The links go round the entries both ways. */
  ghost predicate RingOk(ring: seq<Ptr>, next: map<Ptr, Ptr>, prev: map<Ptr, Ptr>) {
    && NoRepeats(ring) && (forall p :: p in ring ==> p.Node?)
    && forall k :: 0 <= k <= |ring| ==> Joined(next, prev, Circle(ring)[k], Circle(ring)[k + 1])
  }

  lemma {:induction false} CircleDistinct(ring: seq<Ptr>)
    requires NoRepeats(ring) && forall p :: p in ring ==> p.Node?
    ensures forall k, l :: 0 <= k < l <= |ring| + 1 && (k > 0 || l <= |ring|) ==> Circle(ring)[k] != Circle(ring)[l]
  {
    assert forall k :: 0 < k <= |ring| ==> Circle(ring)[k] == ring[k - 1] && ring[k - 1] in ring;
  }

  lemma {:induction false} RingRemoved(ring: seq<Ptr>, next: map<Ptr, Ptr>, prev: map<Ptr, Ptr>, i: nat)
    requires RingOk(ring, next, prev) && i < |ring|
    ensures var e := ring[i];
      && e in next && e in prev
      && RingOk(Without(ring, e), next[prev[e] := next[e]], prev[next[e] := prev[e]])
  {
    var e, c := ring[i], Circle(ring);
    WithoutPlace(ring, i);
    WithoutKeeps(ring, e);
    WithoutRemoves(ring, e);
    CircleDistinct(ring);
    hide Without, NoRepeats;
    assert c[i + 1] == e;
    assert Joined(next, prev, c[i], c[i + 1]) && Joined(next, prev, c[i + 1], c[i + 2]);
    var ring', next', prev' := Without(ring, e), next[c[i] := c[i + 2]], prev[c[i + 2] := c[i]];
    var c' := Circle(ring');
    forall k | 0 <= k <= |ring'|
      ensures Joined(next', prev', c'[k], c'[k + 1])
    {
      JoinedWithout(c, c', next, prev, i, k);
    }
  }

  lemma {:induction false} JoinedWithout(c: seq<Ptr>, c': seq<Ptr>, next: map<Ptr, Ptr>, prev: map<Ptr, Ptr>, i: nat,
        k: nat)
    requires i + 2 < |c| && c' == c[..i + 1] + c[i + 2..] && k + 1 < |c'|
    requires forall j :: 0 <= j < |c| - 1 ==> Joined(next, prev, c[j], c[j + 1])
    requires forall j, l :: 0 <= j < l < |c| && (j > 0 || l < |c| - 1) ==> c[j] != c[l]
    ensures Joined(next[c[i] := c[i + 2]], prev[c[i + 2] := c[i]], c'[k], c'[k + 1])
  {
    if k < i {
      assert Joined(next, prev, c[k], c[k + 1]);
      assert c[k] != c[i] && c[k + 1] != c[i + 2];
    } else if k > i {
      assert c'[k] == c[k + 1] && c'[k + 1] == c[k + 2] && Joined(next, prev, c[k + 1], c[k + 2]);
      assert c[i] != c[k + 1] && c[i + 2] != c[k + 2];
    }
  }

  lemma {:induction false} RingAppended(ring: seq<Ptr>, next: map<Ptr, Ptr>, prev: map<Ptr, Ptr>, e: Ptr)
    requires RingOk(ring, next, prev) && e.Node? && e !in ring
    ensures ListHead in prev && prev[ListHead] != e
    ensures RingOk(ring + [e], next[e := ListHead][prev[ListHead] := e], prev[e := prev[ListHead]][ListHead := e])
  {
    var c, n := Circle(ring), |ring|;
    CircleDistinct(ring);
    assert Joined(next, prev, c[n], c[n + 1]);
    var next', prev', c' := next[e := ListHead][c[n] := e], prev[e := c[n]][ListHead := e], Circle(ring + [e]);
    forall k | 0 <= k <= n + 1
      ensures Joined(next', prev', c'[k], c'[k + 1])
    {
      if k < n {
        assert c'[k] == c[k] && c'[k + 1] == c[k + 1] == ring[k] && Joined(next, prev, c[k], c[k + 1]);
        assert k > 0 ==> c[k] == ring[k - 1];
      } else if k == n {
        assert c'[k] == c[k];
        assert n > 0 ==> c[n] == ring[n - 1];
      }
    }
  }

  // ----- references

  ghost function Refs(s: State, p: Ptr): nat {
    s.handles[p] + if p in s.ring then 1 else 0
  }

  ghost predicate Counted(s: State, refs: map<Ptr, nat>) {
    refs.Keys == s.live && forall p :: p in s.live ==> refs[p] == Refs(s, p)
  }

  /** One reference to the entry is not accounted for any more. */
  ghost predicate CountedBut(s: State, refs: map<Ptr, nat>, e: Ptr) {
    refs.Keys == s.live && e in s.live && (forall p :: p in s.live ==> refs[p] == Refs(s, p) + if p == e then 1 else 0)
  }

  ghost function Listed(s: State): set<Ptr> {
    set p | p in s.ring
  }

  lemma {:induction false} HitCounted(s: State, refs: map<Ptr, nat>, e: Ptr)
    requires Ok(s) && Counted(s, refs) && e in s.ring
    ensures var s' := Touched(s, e);
      && e.Node? && e in refs && e !in Without(s.ring, e) && Ok(s') && Counted(s', refs[e := refs[e] + 1])
      && Listed(s') == Listed(s) && Known(s') == Known(s) && s'.live == s.live
  {
    TouchedOk(s, e);
    WithoutKeeps(s.ring, e);
    WithoutRemoves(s.ring, e);
  }

  lemma {:induction false} ReleaseCounted(s: State, refs: map<Ptr, nat>, e: Ptr)
    requires Ok(s) && Counted(s, refs) && e in s.handles
    ensures e.Node? && CountedBut(s.(handles := s.handles - multiset{e}), refs, e) && Ok(Released(s, e))
    ensures Released(s, e).ring == s.ring && Known(Released(s, e)) == Known(s)
  {
    ReleasedOk(s, e);
  }

  lemma {:induction false} UnlistCounted(s: State, refs: map<Ptr, nat>, e: Ptr)
    requires Sound(s) && Counted(s, refs) && e in s.ring
    ensures e.Node? && CountedBut(s.(ring := Without(s.ring, e)), refs, e)
    ensures Listed(Unlisted(s, e)) == Listed(s) - {e} && Known(Unlisted(s, e)) == Known(s)
    ensures Unlisted(s, e).ring == Without(s.ring, e)
  {
    WithoutKeeps(s.ring, e);
    WithoutRemoves(s.ring, e);
  }

  lemma {:induction false} AddCounted(s: State, refs: map<Ptr, nat>, e: Ptr)
    requires Ok(s) && Counted(s, refs) && e.Node? && e !in Known(s)
    ensures e !in s.ring && Sound(Added(s, e)) && Counted(Added(s, e), refs[e := 2]) &&
      Charges(Added(s, e).live) == Charges(s.live) + e.charge
    ensures e !in Listed(s) && Listed(Added(s, e)) == Listed(s) + {e} && Known(Added(s, e)) == Known(s) + {e}
  {
    hide UniqueKeys;
    ChargesAdded(s.live, e);
    hide Charges;
  }

  lemma {:induction false} ChargesAdded(ps: set<Ptr>, e: Ptr)
    requires e !in ps
    ensures Charges(ps + {e}) == Charges(ps) + Charge(e)
  {
    ChargesWithout(ps + {e}, e);
    assert ps + {e} - {e} == ps;
  }

  lemma {:induction false} RingFirst(ring: seq<Ptr>, next: map<Ptr, Ptr>, prev: map<Ptr, Ptr>)
    requires RingOk(ring, next, prev)
    ensures ListHead in next && next[ListHead] == (if ring == [] then ListHead else ring[0]) &&
      (ring != [] ==> ring[0].Node?)
  {
    assert Joined(next, prev, Circle(ring)[0], Circle(ring)[1]);
  }

  ghost predicate KnownBefore(s: State, nextId: nat) {
    forall p :: p in Known(s) ==> p.Node? && p.id < nextId
  }

  class LRUCache {
    var capacity: nat
    var usage: nat
    /** The links and reference counts of the entries. */
    var next: map<Ptr, Ptr>
    var prev: map<Ptr, Ptr>
    var refs: map<Ptr, nat>
    var nextId: nat
    const table: HandleTable
    ghost var state: State

    ghost predicate Valid()
      reads this, table
    {
      && table.Valid() && table.Contents() == Listed(state)
      && RingOk(state.ring, next, prev)
      && Ok(state) && Counted(state, refs) && usage == Charges(state.live)
      && KnownBefore(state, nextId)
    }

    constructor (capacity: nat)
      ensures Valid() && state == EMPTY && this.capacity == capacity && fresh(table)
    {
      this.capacity, usage, nextId, state := capacity, 0, 0, EMPTY;
      next, prev, refs := map[ListHead := ListHead], map[ListHead := ListHead], map[];
      table := new HandleTable();
    }

    /** Drops a reference already gone from the state, and with the last one the entry. */
    method Unref(e: Ptr)
      requires CountedBut(state, refs, e) && usage == Charges(state.live) && e.Node?
      modifies `usage, `refs, `state
      ensures state == Settle(old(state), e) && Counted(state, refs) && usage == Charges(state.live)
    {
      refs := refs[e := refs[e] - 1];
      if refs[e] <= 0 {
        ChargesWithout(state.live, e);
        usage := usage - e.charge;
        refs := refs - {e};
      }
      state := Settle(state, e);
    }

    /** Out of the list: the table and the references are still to follow. */
    method LRU_Remove(e: Ptr)
      requires RingOk(state.ring, next, prev) && e in state.ring
      modifies `next, `prev, `state
      ensures state == old(state).(ring := Without(old(state.ring), e)) && RingOk(state.ring, next, prev)
    {
      ghost var i :| 0 <= i < |state.ring| && state.ring[i] == e;
      RingRemoved(state.ring, next, prev, i);
      prev := prev[next[e] := prev[e]];
      next := next[prev[e] := next[e]];
      state := state.(ring := Without(state.ring, e));
    }

    method LRU_Append(e: Ptr)
      requires RingOk(state.ring, next, prev) && e.Node? && e !in state.ring
      modifies `next, `prev, `state
      ensures state == old(state).(ring := old(state.ring) + [e]) && RingOk(state.ring, next, prev)
    {
      RingAppended(state.ring, next, prev, e);
      next := next[e := ListHead];
      prev := prev[e := prev[ListHead]];
      next := next[prev[e] := e];
      prev := prev[next[e] := e];
      state := state.(ring := state.ring + [e]);
    }

    method Lookup(key: Bytes, hash: nat) returns (e: Ptr)
      requires Valid()
      modifies this
      ensures Valid() && capacity == old(capacity)
      ensures e == FindFor(old(state.ring), key, hash) && state == LookedUp(old(state), key, hash)
      ensures HandsOut(old(state), state, key, hash, e)
    {
      hide HandleTable.Valid, HandleTable.Contents, RingOk, Ok, Counted, Charges, Known, Listed, Without, FindFor,
        IsFor, HandsOut;
      LookedUpHandsOut(state, key, hash);
      e := table.Lookup(key, hash);
      FoundFor(state, table.Contents(), key, hash, e);
      if e != Null {
        HitCounted(state, refs, e);
        ghost var handles := state.handles + multiset{e};
        refs := refs[e := refs[e] + 1];
        LRU_Remove(e);
        LRU_Append(e);
        state := state.(handles := handles);
      }
    }

    method Release(e: Ptr)
      requires Valid() && e in state.handles
      modifies this
      ensures Valid() && capacity == old(capacity)
      ensures state == Released(old(state), e) && GivesBack(old(state), state, e)
    {
      hide HandleTable.Valid, HandleTable.Contents, RingOk, Ok, Counted, CountedBut, Charges, Known;
      ReleaseCounted(state, refs, e);
      state := state.(handles := state.handles - multiset{e});
      Unref(e);
    }

    method Insert(key: Bytes, hash: nat, value: nat, charge: nat) returns (e: Ptr)
      requires Valid()
      modifies this, table
      ensures Valid() && capacity == old(capacity)
      ensures e == Node(old(nextId), key, hash, charge, value) && e !in Known(old(state))
      ensures state == Inserted(old(state), e, capacity)
      ensures PutsInAndEvicts(old(state), state, e, capacity)
    {
      hide HandleTable.Valid, HandleTable.Contents, RingOk, Ok, Sound, Counted, CountedBut, Charges, Known, Listed,
        Without, FindFor, IsFor, Settle, PutsInAndEvicts, UniqueKeys;
      e := Node(nextId, key, hash, charge, value);
      AddCounted(state, refs, e);
      NewEntryOk(state, e, capacity);
      ghost var s := state;
      nextId := nextId + 1;
      refs := refs[e := 2];
      LRU_Append(e);
      usage := usage + charge;
      state := Added(s, e);
      var old0 := table.Insert(e);
      FoundFor(s, old(table.Contents()), key, hash, old0);
      if old0 != Null {
        UnlistCounted(state, refs, old0);
        LRU_Remove(old0);
        Unref(old0);
      }
      assert state == Replaced(s, e);
      RingFirst(state.ring, next, prev);
      while usage > capacity && next[ListHead] != ListHead
        invariant Valid() && capacity == old(capacity)
        invariant ListHead in next && (next[ListHead] == ListHead <==> state.ring == [])
        invariant Evicted(state, capacity) == Inserted(s, e, capacity)
        decreases |state.ring|
      {
        EvictOldest();
        RingFirst(state.ring, next, prev);
      }
    }

    method EvictOldest()
      requires Valid() && state.ring != []
      modifies this, table
      ensures Valid() && capacity == old(capacity)
      ensures state == Unlisted(old(state), old(state.ring[0])) && |state.ring| < |old(state.ring)|
    {
      hide HandleTable.Valid, HandleTable.Contents, RingOk, Ok, Sound, Counted, CountedBut, Charges, Known, Listed,
        Without, FindFor, IsFor, Settle;
      RingFirst(state.ring, next, prev);
      var oldest := next[ListHead];
      OkSound(state);
      UnlistCounted(state, refs, oldest);
      UnlistedOk(state, oldest);
      WithoutRemoves(state.ring, oldest);
      LRU_Remove(oldest);
      var removed := table.Remove(oldest.key, oldest.hash);
      FoundFor(old(state), old(table.Contents()), oldest.key, oldest.hash, removed);
      FindForSelf(old(state), oldest);
      Unref(oldest);
    }

    method Erase(key: Bytes, hash: nat)
      requires Valid()
      modifies this, table
      ensures Valid() && capacity == old(capacity)
      ensures state == Erased(old(state), key, hash)
      ensures TakesOutKey(old(state), state, key, hash) && NoneFor(table.Contents(), key, hash)
    {
      hide HandleTable.Valid, HandleTable.Contents, RingOk, Ok, Sound, Counted, CountedBut, Charges, Known, Listed,
        Without, FindFor, IsFor, Settle, TakesOutKey, NoneListed, NoneFor;
      ErasedTakesOut(state, key, hash);
      var e := table.Remove(key, hash);
      FoundFor(state, old(table.Contents()), key, hash, e);
      if e != Null {
        OkSound(state);
        UnlistCounted(state, refs, e);
        UnlistedOk(state, e);
        LRU_Remove(e);
        Unref(e);
      }
      NoneInTable(state, table.Contents(), key, hash);
    }
  }

  lemma {:induction false} NewEntryOk(s: State, e: Ptr, capacity: nat)
    requires Ok(s) && e.Node? && e !in Known(s)
    ensures Ok(Replaced(s, e)) && PutsInAndEvicts(s, Inserted(s, e, capacity), e, capacity)
  {
    hide Ok, PutsInAndEvicts, Evicted, Replaced;
    ReplacedOk(s, e);
    InsertedPutsIn(s, e, capacity);
  }

  lemma {:induction false} NoneInTable(s: State, contents: set<Ptr>, key: Bytes, hash: nat)
    requires contents == Listed(s) && NoneListed(s.ring, key, hash)
    ensures NoneFor(contents, key, hash)
  {
  }

  lemma {:induction false} OkSound(s: State)
    requires Ok(s)
    ensures Sound(s)
  {
  }

  lemma {:induction false} FoundFor(s: State, contents: set<Ptr>, key: Bytes, hash: nat, p: Ptr)
    requires contents == Listed(s) && Ok(s)
    requires if p == Null then NoneFor(contents, key, hash) else p in contents && IsFor(p, key, hash)
    ensures p == FindFor(s.ring, key, hash) && (p != Null ==> p in s.ring)
  {
    FindForMeans(s.ring, key, hash);
  }

  lemma {:induction false} FindForSelf(s: State, p: Ptr)
    requires Ok(s) && p in s.ring
    ensures p.Node? && FindFor(s.ring, p.key, p.hash) == p
  {
    FindForMeans(s.ring, p.key, p.hash);
  }
}
