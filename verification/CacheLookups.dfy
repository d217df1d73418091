/** What lookups find over whole runs of a cache. */
module CacheLookups {
  import opened ByteStrings
  import opened Table = HandleTable
  import opened LruCache

  /** The entry last inserted for the key, unless the key was erased after that. */
  function LastFor(ops: seq<Op>, key: Bytes, hash: nat): Ptr {
    if ops == [] then Null else
      var before := ops[..|ops| - 1];
      match ops[|ops| - 1]
      case Insert(p) => if p.Node? && p.key == key && p.hash == hash then p else LastFor(before, key, hash)
      case Erase(k, h) => if k == key && h == hash then Null else LastFor(before, key, hash)
      case _ => LastFor(before, key, hash)
  }

  /** Only this entry is listed for the key. */
  ghost predicate OnlyFor(ring: seq<Ptr>, key: Bytes, hash: nat, p: Ptr) {
    forall q :: q in ring && IsFor(q, key, hash) ==> q == p
  }

  /** Of the listed entries only this one is for its key. */
  lemma {:induction false} OneForKey(s: State, key: Bytes, hash: nat, i: nat)
    requires Ok(s) && i < |s.ring| && IsFor(s.ring[i], key, hash)
    ensures forall k :: 0 <= k < |s.ring| && k != i ==> !IsFor(s.ring[k], key, hash)
  {
    forall k | 0 <= k < |s.ring| && k != i
      ensures !IsFor(s.ring[k], key, hash)
    {
      assert k < i || i < k;
      assert s.ring[k] in s.ring && s.ring[i] in s.ring && s.ring[k] != s.ring[i];
    }
  }

  lemma {:induction false} RestMembers(s: State, key: Bytes, hash: nat, i: nat)
    requires Ok(s) && i < |s.ring| && IsFor(s.ring[i], key, hash)
    ensures forall q :: q in s.ring[..i] + s.ring[i + 1..] <==> q in s.ring && !IsFor(q, key, hash)
  {
    OneForKey(s, key, hash, i);
    hide Ok, IsFor;
    var rest := s.ring[..i] + s.ring[i + 1..];
    forall q | q in rest
      ensures q in s.ring && !IsFor(q, key, hash)
    {
      var k :| 0 <= k < |rest| && rest[k] == q;
      assert q == s.ring[if k < i then k else k + 1];
    }
    forall q | q in s.ring && !IsFor(q, key, hash)
      ensures q in rest
    {
      var k :| 0 <= k < |s.ring| && s.ring[k] == q;
      assert rest[if k < i then k else k - 1] == q;
    }
  }

  lemma {:induction false} PutsInMembers(s: State, mid: State, p: Ptr)
    requires Ok(s) && p.Node? && PutsIn(s, mid, p)
    ensures forall q :: q in mid.ring <==> q == p || (q in s.ring && !IsFor(q, p.key, p.hash))
    ensures mid.live <= s.live + {p}
  {
    hide Ok, IsFor, TakesOut;
    if !NoneListed(s.ring, p.key, p.hash) {
      var i :| 0 <= i < |s.ring| && IsFor(s.ring[i], p.key, p.hash);
      var more := State(s.ring + [p], s.handles + multiset{p}, s.live + {p}, s.deleted);
      assert TakesOut(more, mid, i);
      RestMembers(s, p.key, p.hash, i);
      TakenLast(more, mid, s.ring, p, i);
    }
  }

  lemma {:induction false} TakenLast(more: State, mid: State, ring: seq<Ptr>, p: Ptr, i: nat)
    requires more.ring == ring + [p] && i < |ring| && TakesOut(more, mid, i)
    ensures mid.ring == (ring[..i] + ring[i + 1..]) + [p] && mid.live <= more.live
  {
    assert more.ring[..i] == ring[..i] && more.ring[i + 1..] == ring[i + 1..] + [p];
  }

  lemma {:induction false} EvictsMembers(mid: State, s': State, capacity: nat, n: nat)
    requires Evicts(mid, s', capacity, n)
    ensures forall q :: q in s'.ring ==> q in mid.ring
    ensures Charges(mid.live) <= capacity ==> s'.ring == mid.ring
  {
    hide Charges;
    assert mid.live - Unheld(mid, 0) == mid.live;
  }

  lemma {:induction false} InsertFindsLast(s: State, s': State, p: Ptr, capacity: nat, key: Bytes, hash: nat, last: Ptr)
    requires Ok(s) && p.Node? && PutsInAndEvicts(s, s', p, capacity) && OnlyFor(s.ring, key, hash, last)
    ensures OnlyFor(s'.ring, key, hash, if p.key == key && p.hash == hash then p else last)
  {
    hide Ok, Evicts, PutsIn;
    var mid: State, n: nat :| PutsIn(s, mid, p) && Evicts(mid, s', capacity, n);
    PutsInMembers(s, mid, p);
    EvictsMembers(mid, s', capacity, n);
  }

  lemma {:induction false} LookupMembers(s: State, s': State, key: Bytes, hash: nat, p: Ptr)
    requires HandsOut(s, s', key, hash, p)
    ensures forall q :: q in s'.ring <==> q in s.ring
  {
    if p != Null {
      var i :| 0 <= i < |s.ring| && s.ring[i] == p;
      assert s.ring == s.ring[..i] + [p] + s.ring[i + 1..];
    }
  }

  lemma {:induction false} EraseMembers(s: State, s': State, k: Bytes, h: nat)
    requires Ok(s) && TakesOutKey(s, s', k, h)
    ensures forall q :: q in s'.ring <==> q in s.ring && !IsFor(q, k, h)
  {
    if !NoneListed(s.ring, k, h) {
      var i :| 0 <= i < |s.ring| && IsFor(s.ring[i], k, h);
      assert TakesOut(s, s', i);
      RestMembers(s, k, h, i);
    }
  }

  /** In every run a lookup finds the entry last inserted for its key and not erased since, or nothing. */
  lemma {:induction false} FindsLast(ops: seq<Op>, capacity: nat, key: Bytes, hash: nat)
    requires Legal(ops, capacity)
    ensures OnlyFor(Run(ops, capacity).ring, key, hash, LastFor(ops, key, hash))
  {
    hide Ok, Inserted, LookedUp, Released, Erased, PutsInAndEvicts, HandsOut, TakesOutKey;
    if ops != [] {
      var before := ops[..|ops| - 1];
      var s := Run(before, capacity);
      RunOk(before, capacity);
      FindsLast(before, capacity, key, hash);
      StepMembers(s, ops[|ops| - 1], capacity);
      match ops[|ops| - 1]
      case Insert(p) =>
        InsertFindsLast(s, Run(ops, capacity), p, capacity, key, hash, LastFor(before, key, hash));
      case _ =>
    }
  }

  /** What each operation makes of the list. */
  lemma {:induction false} StepMembers(s: State, op: Op, capacity: nat)
    requires Ok(s) && Enabled(s, op)
    ensures var s' := Step(s, op, capacity);
      match op
      case Insert(p) => PutsInAndEvicts(s, s', p, capacity)
      case Lookup(_, _) => forall q :: q in s'.ring <==> q in s.ring
      case Release(_) => s'.ring == s.ring
      case Erase(k, h) => forall q :: q in s'.ring <==> q in s.ring && !IsFor(q, k, h)
  {
    hide Ok, Inserted, LookedUp, Erased, PutsInAndEvicts, HandsOut, TakesOutKey, IsFor;
    match op
    case Insert(p) =>
      InsertedPutsIn(s, p, capacity);
    case Lookup(key, hash) =>
      LookedUpHandsOut(s, key, hash);
      LookupMembers(s, LookedUp(s, key, hash), key, hash, FindFor(s.ring, key, hash));
    case Release(_) =>
    case Erase(k, h) =>
      ErasedTakesOut(s, k, h);
      EraseMembers(s, Erased(s, k, h), k, h);
  }

  // ----- with room for everything

  lemma {:induction false} ChargesGrow(a: set<Ptr>, b: set<Ptr>)
    requires a <= b
    ensures Charges(a) <= Charges(b)
    decreases a
  {
    if p :| p in a {
      ChargesWithout(a, p);
      ChargesWithout(b, p);
      ChargesGrow(a - {p}, b - {p});
    }
  }

  lemma {:induction false} InsertWithRoom(s: State, s': State, p: Ptr, capacity: nat)
    requires Ok(s) && p.Node? && PutsInAndEvicts(s, s', p, capacity) && Charges(s.live + {p}) <= capacity
    ensures forall q :: q in s'.ring <==> q == p || (q in s.ring && !IsFor(q, p.key, p.hash))
  {
    hide Ok, Evicts, PutsIn, Charges, IsFor;
    var mid: State, n: nat :| PutsIn(s, mid, p) && Evicts(mid, s', capacity, n);
    PutsInMembers(s, mid, p);
    ChargesGrow(mid.live, s.live + {p});
    EvictsMembers(mid, s', capacity, n);
  }

  /** If there is room for all that is ever inserted, a lookup finds the entry last inserted for its key
      and not erased since. */
  lemma {:induction false} FindsAllWithRoom(ops: seq<Op>, capacity: nat, key: Bytes, hash: nat)
    requires Legal(ops, capacity) && Charges(InsertedBy(ops)) <= capacity
    ensures var last := LastFor(ops, key, hash);
      last != Null ==> last in Run(ops, capacity).ring && IsFor(last, key, hash)
  {
    hide Ok, Inserted, LookedUp, Released, Erased, PutsInAndEvicts, HandsOut, TakesOutKey, Charges;
    if ops != [] {
      var before, op := ops[..|ops| - 1], ops[|ops| - 1];
      var s := Run(before, capacity);
      assert ops == before + [op];
      ChargesGrow(InsertedBy(before), InsertedBy(ops));
      RunOk(before, capacity);
      FindsAllWithRoom(before, capacity, key, hash);
      StepMembers(s, op, capacity);
      match op
      case Insert(p) =>
        ChargesGrow(s.live + {p}, InsertedBy(ops));
        InsertWithRoom(s, Run(ops, capacity), p, capacity);
      case _ =>
    }
  }
}
