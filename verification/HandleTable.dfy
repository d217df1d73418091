/** The cache's hash table: buckets of entries chained through the entries themselves. */
module HandleTable {
  import opened ByteStrings

  /** A pointer to an entry, with what never changes in the entry. The list head of the cache is
      an entry too. The fields that do change are kept by whoever changes them. */
  datatype Ptr = Null | ListHead | Node(id: nat, key: Bytes, hash: nat, charge: nat, value: nat)

  ghost predicate IsFor(p: Ptr, key: Bytes, hash: nat) {
    p.Node? && p.hash == hash && p.key == key
  }

  function First(c: seq<Ptr>): Ptr {
    if c == [] then Null else c[0]
  }

  /** What the link of entry `k` of a chain points to. */
  function After(c: seq<Ptr>, k: nat): Ptr {
    if k + 1 < |c| then c[k + 1] else Null
  }

  /** The bucket's entries hang together through their links. */
  ghost predicate Linked(c: seq<Ptr>, first: Ptr, nextHash: map<Ptr, Ptr>) {
    && first == First(c)
    && (forall k :: 0 <= k < |c| ==> c[k].Node? && c[k] in nextHash)
    && (forall k :: 0 <= k < |c| ==> nextHash[c[k]] == After(c, k))
  }

  /** Entries stand in the bucket of their hash. */
  ghost predicate Hashed(chains: seq<seq<Ptr>>) {
    forall i, k :: 0 <= i < |chains| && 0 <= k < |chains[i]| ==> chains[i][k].Node? && chains[i][k].hash % |chains| == i
  }

  ghost predicate TwoAt(c: seq<Ptr>, k: int, l: int) {
    0 <= k < |c| && 0 <= l < |c| && k != l
  }

  /** No two entries of a bucket are for the same key. */
  ghost predicate Unique(c: seq<Ptr>) {
    forall k, l :: TwoAt(c, k, l) && c[k].Node? ==> !IsFor(c[l], c[k].key, c[k].hash)
  }

  ghost predicate TableOk(list: seq<Ptr>, nextHash: map<Ptr, Ptr>, chains: seq<seq<Ptr>>) {
    && |list| == |chains| > 0
    && (forall i :: 0 <= i < |chains| ==> Linked(chains[i], list[i], nextHash))
    && Hashed(chains)
    && (forall i :: 0 <= i < |chains| ==> Unique(chains[i]))
  }

  ghost function Nodes(chains: seq<seq<Ptr>>): set<Ptr> {
    set c, p | c in chains && p in c :: p
  }

  ghost predicate PowerOfTwo(n: nat) {
    n == 1 || (n % 2 == 0 && n > 0 && PowerOfTwo(n / 2))
  }

  /** Where a pointer to an entry is stored: in a bucket, or in the link of an entry. */
  datatype Slot = Bucket(i: nat) | LinkOf(p: Ptr)

  function SlotAt(c: seq<Ptr>, i: nat, k: nat): Slot
    requires k <= |c|
  {
    if k == 0 then Bucket(i) else LinkOf(c[k - 1])
  }

  /** The slot leads to the first entry for the key in its bucket, or to the bucket's end. */
  ghost predicate Finds(chains: seq<seq<Ptr>>, slot: Slot, k: nat, key: Bytes, hash: nat) {
    && |chains| > 0
    && var i := hash % |chains|; var c := chains[i];
    && k <= |c| && slot == SlotAt(c, i, k)
    && (forall l :: 0 <= l < k ==> !IsFor(c[l], key, hash))
    && (k < |c| ==> IsFor(c[k], key, hash))
  }

  class HandleTable {
    var length: nat
    var elems: nat
    var list: seq<Ptr>
    /** The link field of each entry. */
    var nextHash: map<Ptr, Ptr>
    ghost var chains: seq<seq<Ptr>>

    ghost predicate Valid()
      reads this
    {
      && length == |list| && PowerOfTwo(length)
      && TableOk(list, nextHash, chains)
      && elems == |Nodes(chains)|
    }

    ghost function Contents(): set<Ptr>
      reads this
    {
      Nodes(chains)
    }

    /** Leaves the empty list that Resize makes of no list at all. */
    constructor ()
      ensures Valid() && Contents() == {}
    {
      length, elems, list, nextHash := 4, 0, seq(4, _ => Null), map[];
      chains := seq(4, _ => []);
      new;
      assert PowerOfTwo(2);
    }

    /** The slot that points to the entry for the key, or the trailing slot of its bucket. */
    method FindPointer(key: Bytes, hash: nat) returns (slot: Slot, ghost k: nat)
      requires Valid()
      ensures Finds(chains, slot, k, key, hash)
    {
      hide PowerOfTwo, Unique, Nodes, Hashed;
      TableSize(list, nextHash, chains);
      // The length is a power of two, so masking with length - 1 is the remainder.
      var i := hash % length;
      ghost var c := chains[i];
      assert Linked(c, list[i], nextHash);
      hide TableOk;
      slot, k := Bucket(i), 0;
      while true
        invariant k <= |c| && slot == SlotAt(c, i, k)
        invariant forall l :: 0 <= l < k ==> !IsFor(c[l], key, hash)
        decreases |c| - k
      {
        var p := Deref(slot);
        if p == Null || (p.Node? && p.hash == hash && p.key == key) {
          return;
        }
        slot, k := LinkOf(p), k + 1;
      }
    }

    function Deref(slot: Slot): (p: Ptr)
      requires (slot.Bucket? ==> slot.i < |list|) && (slot.LinkOf? ==> slot.p in nextHash)
      reads this
    {
      match slot
      case Bucket(i) => list[i]
      case LinkOf(p) => nextHash[p]
    }

    method Assign(slot: Slot, p: Ptr)
      requires (slot.Bucket? ==> slot.i < |list|) && (slot.LinkOf? ==> slot.p in nextHash)
      modifies `list, `nextHash
      ensures list == if slot.Bucket? then old(list)[slot.i := p] else old(list)
      ensures nextHash == if slot.LinkOf? then old(nextHash)[slot.p := p] else old(nextHash)
    {
      match slot
      case Bucket(i) => list := list[i := p];
      case LinkOf(q) => nextHash := nextHash[q := p];
    }

    method Lookup(key: Bytes, hash: nat) returns (p: Ptr)
      requires Valid()
      ensures if p == Null then NoneFor(Contents(), key, hash) else p in Contents() && IsFor(p, key, hash)
    {
      hide TableOk, PowerOfTwo, Nodes, Finds;
      var slot;
      ghost var k;
      slot, k := FindPointer(key, hash);
      TableFacts(list, nextHash, chains, slot, key, hash, k);
      p := Deref(slot);
    }

    /** Adds an entry, in the place of the one for the same key if there is one. */
    method Insert(h: Ptr) returns (old0: Ptr)
      requires Valid() && h.Node? && h !in Contents()
      modifies this
      ensures Valid()
      ensures if old0 == Null then NoneFor(old(Contents()), h.key, h.hash) && Contents() == old(Contents()) + {h}
              else old0 in old(Contents()) && IsFor(old0, h.key, h.hash) && Contents() == old(Contents()) - {old0} + {h}
    {
      hide TableOk, PowerOfTwo, Nodes, WithAt, Finds;
      var slot;
      ghost var k;
      slot, k := FindPointer(h.key, h.hash);
      TableFacts(list, nextHash, chains, slot, h.key, h.hash, k);
      ghost var i := h.hash % |chains|;
      TableReplaced(list, nextHash, chains, i, k, h);
      old0 := Deref(slot);
      nextHash := nextHash[h := if old0 == Null then Null else nextHash[old0]];
      Assign(slot, h);
      chains := chains[i := WithAt(chains[i], k, h)];
      if old0 == Null {
        elems := elems + 1;
        if elems > length {
          Resize();
        }
      }
    }

    method Remove(key: Bytes, hash: nat) returns (result: Ptr)
      requires Valid()
      modifies this
      ensures Valid()
      ensures if result == Null then NoneFor(old(Contents()), key, hash) && Contents() == old(Contents())
              else result in old(Contents()) && IsFor(result, key, hash) && Contents() == old(Contents()) - {result}
    {
      hide TableOk, PowerOfTwo, Nodes, WithoutAt, Finds;
      var slot;
      ghost var k;
      slot, k := FindPointer(key, hash);
      TableFacts(list, nextHash, chains, slot, key, hash, k);
      ghost var i := hash % |chains|;
      result := Deref(slot);
      if result != Null {
        TableRemoved(list, nextHash, chains, i, k);
        Assign(slot, nextHash[result]);
        chains := chains[i := WithoutAt(chains[i], k)];
        elems := elems - 1;
      }
    }

    /** Moves every entry to a list long enough for all of them. */
    method Resize()
      requires length == |list| && PowerOfTwo(length) && TableOk(list, nextHash, chains) && elems == |Contents()|
      modifies this
      ensures Valid() && Contents() == old(Contents())
    {
      hide TableOk, Nodes, Moving, Moved;
      var newLength: nat := 4;
      Doubles(1);
      Doubles(2);
      while newLength < elems
        invariant PowerOfTwo(newLength) && newLength >= 4
        modifies {}
      {
        Doubles(newLength);
        newLength := newLength * 2;
      }
      var newList: seq<Ptr> := seq(newLength, _ => Null);
      ghost var newChains: seq<seq<Ptr>> := seq(newLength, _ => []);
      var count, i := 0, 0;
      MovingStarts(chains, list, nextHash, newList, newChains);
      while i < length
        invariant i <= length == |list| == |chains| && list == old(list) && chains == old(chains) && elems == old(elems)
        invariant newLength == |newList| == |newChains| && count == |Nodes(newChains)|
        invariant Moving(chains, i, 0, list, nextHash, newList, newChains)
      {
        newList, count, newChains := MoveBucket(i, newList, count, newChains);
        i := i + 1;
      }
      MovingEnds(chains, list, nextHash, newList, newChains);
      assert elems == count;
      list, length, chains := newList, newLength, newChains;
    }

    /** Moves the entries of one bucket, first to last, each to the front of its new bucket. */
    method MoveBucket(i: nat, newList0: seq<Ptr>, count0: nat, ghost newChains0: seq<seq<Ptr>>)
      returns (newList: seq<Ptr>, count: nat, ghost newChains: seq<seq<Ptr>>)
      requires i < |list| == |chains| && |newList0| == |newChains0| && count0 == |Nodes(newChains0)|
      requires Moving(chains, i, 0, list, nextHash, newList0, newChains0)
      modifies `nextHash
      ensures |newList| == |newChains| == |newList0| && count == |Nodes(newChains)|
      ensures Moving(chains, i + 1, 0, list, nextHash, newList, newChains)
    {
      hide TableOk, Nodes, Moving, Moved;
      newList, count, newChains := newList0, count0, newChains0;
      ghost var k := 0;
      BucketStarts(chains, i, list, nextHash, newList, newChains);
      var h := list[i];
      while h != Null
        invariant |newList| == |newChains| == |newList0| && count == |Nodes(newChains)|
        invariant k <= |chains[i]| && h == (if k < |chains[i]| then chains[i][k] else Null)
        invariant Moving(chains, i, k, list, nextHash, newList, newChains)
        decreases |chains[i]| - k
      {
        EntryMoves(chains, i, k, list, nextHash, newList, newChains);
        var next := nextHash[h];
        var j := h.hash % |newList|;
        nextHash := nextHash[h := newList[j]];
        newList := newList[j := h];
        newChains := newChains[j := [h] + newChains[j]];
        h := next;
        count := count + 1;
        k := k + 1;
      }
      BucketEnds(chains, i, k, list, nextHash, newList, newChains);
    }
  }

  lemma {:induction false} Doubles(n: nat)
    requires PowerOfTwo(n)
    ensures PowerOfTwo(2 * n)
  {
    assert 2 * n / 2 == n;
  }

  /** A chain with an entry put in at a position, in the place of what was there. */
  function WithAt(c: seq<Ptr>, k: nat, h: Ptr): seq<Ptr>
    requires k <= |c|
  {
    c[..k] + [h] + if k < |c| then c[k + 1..] else []
  }

  function WithoutAt(c: seq<Ptr>, k: nat): seq<Ptr>
    requires k < |c|
  {
    c[..k] + c[k + 1..]
  }

  function First0(slot: Slot, first: Ptr, p: Ptr): Ptr {
    if slot.Bucket? then p else first
  }

  function Links(slot: Slot, nextHash: map<Ptr, Ptr>, p: Ptr): map<Ptr, Ptr> {
    if slot.LinkOf? then nextHash[slot.p := p] else nextHash
  }

  lemma {:induction false} Distinct(c: seq<Ptr>, k: nat, l: nat)
    requires Unique(c) && k < |c| && l < |c| && k != l && c[k].Node?
    ensures c[k] != c[l]
  {
    assert TwoAt(c, k, l);
  }

  lemma {:induction false} ChainReplaced(c: seq<Ptr>, first: Ptr, nextHash: map<Ptr, Ptr>, i: nat, k: nat, h: Ptr)
    requires Linked(c, first, nextHash) && Unique(c) && k <= |c| && h.Node? && h !in c
    ensures var slot := SlotAt(c, i, k);
      var links := nextHash[h := if k < |c| then nextHash[c[k]] else Null];
      Linked(WithAt(c, k, h), First0(slot, first, h), Links(slot, links, h))
  {
    var slot := SlotAt(c, i, k);
    var links := nextHash[h := if k < |c| then nextHash[c[k]] else Null];
    var links', c' := Links(slot, links, h), WithAt(c, k, h);
    forall l | 0 <= l < |c'|
      ensures c'[l].Node? && c'[l] in links' && links'[c'[l]] == After(c', l)
    {
      if l < k {
        assert c'[l] == c[l];
        if l + 1 < k {
          Distinct(c, l, k - 1);
        }
      } else if l > k {
        assert c'[l] == c[l];
        if k > 0 {
          Distinct(c, l, k - 1);
        }
      }
    }
  }

  lemma {:induction false} ChainRemoved(c: seq<Ptr>, first: Ptr, nextHash: map<Ptr, Ptr>, i: nat, k: nat)
    requires Linked(c, first, nextHash) && Unique(c) && k < |c|
    ensures var slot := SlotAt(c, i, k);
      Linked(WithoutAt(c, k), First0(slot, first, nextHash[c[k]]), Links(slot, nextHash, nextHash[c[k]]))
  {
    hide IsFor, Unique;
    var slot := SlotAt(c, i, k);
    var links', c' := Links(slot, nextHash, nextHash[c[k]]), WithoutAt(c, k);
    assert nextHash[c[k]] == After(c, k);
    forall l | 0 <= l < |c'|
      ensures c'[l].Node? && c'[l] in links' && links'[c'[l]] == After(c', l)
    {
      var o := if l < k then l else l + 1;
      assert c'[l] == c[o];
      if k > 0 && o != k - 1 {
        Distinct(c, o, k - 1);
      }
    }
  }

  /** Links of other entries do not matter to a chain. */
  lemma {:induction false} LinkedFrame(c: seq<Ptr>, first: Ptr, nextHash: map<Ptr, Ptr>, nextHash': map<Ptr, Ptr>)
    requires Linked(c, first, nextHash)
    requires forall p :: p in c ==> p in nextHash' && nextHash'[p] == nextHash[p]
    ensures Linked(c, first, nextHash')
  {
  }

  lemma {:induction false} UniqueWithAt(c: seq<Ptr>, k: nat, h: Ptr)
    requires Unique(c) && k <= |c| && h.Node?
    requires forall l :: 0 <= l < |c| && l != k ==> c[l].Node? && !IsFor(c[l], h.key, h.hash)
    ensures Unique(WithAt(c, k, h))
  {
    var c' := WithAt(c, k, h);
    forall a, b | TwoAt(c', a, b) && c'[a].Node?
      ensures !IsFor(c'[b], c'[a].key, c'[a].hash)
    {
      assert a != k ==> c'[a] == c[a];
      assert b != k ==> c'[b] == c[b];
      if a != k && b != k {
        assert TwoAt(c, a, b);
      }
    }
  }

  lemma {:induction false} UniqueWithoutAt(c: seq<Ptr>, k: nat)
    requires Unique(c) && k < |c|
    ensures Unique(WithoutAt(c, k))
  {
    var c' := WithoutAt(c, k);
    forall a, b | TwoAt(c', a, b) && c'[a].Node?
      ensures !IsFor(c'[b], c'[a].key, c'[a].hash)
    {
      var x, y := if a < k then a else a + 1, if b < k then b else b + 1;
      assert c'[a] == c[x] && c'[b] == c[y] && TwoAt(c, x, y);
    }
  }

  ghost predicate NoneFor(nodes: set<Ptr>, key: Bytes, hash: nat) {
    forall q :: q in nodes ==> !IsFor(q, key, hash)
  }

  /** What the slot found for a key says about the whole table. */
  lemma {:induction false} TableFacts(list: seq<Ptr>, nextHash: map<Ptr, Ptr>, chains: seq<seq<Ptr>>, slot: Slot,
        key: Bytes, hash: nat, k: nat)
    requires TableOk(list, nextHash, chains) && Finds(chains, slot, k, key, hash)
    ensures |chains| == |list| > 0 && k <= |chains[hash % |chains|]|
    ensures var i := hash % |chains|; slot == SlotAt(chains[i], i, k)
    ensures var c := chains[hash % |chains|];
      && (slot.Bucket? ==> slot.i < |list|) && (slot.LinkOf? ==> slot.p in nextHash)
      && (if slot.Bucket? then list[slot.i] else nextHash[slot.p]) == (if k < |c| then c[k] else Null)
      && (k < |c| ==> c[k] in nextHash && c[k] in Nodes(chains) && IsFor(c[k], key, hash))
      && (k == |c| ==> NoneFor(Nodes(chains), key, hash))
      && (forall l :: 0 <= l < |c| && l != k ==> !IsFor(c[l], key, hash))
  {
    var i := hash % |chains|;
    var c := chains[i];
    assert Linked(c, list[i], nextHash) && Unique(c);
    if k < |c| {
      InBucket(chains, i);
      forall l | 0 <= l < |c| && l != k
        ensures !IsFor(c[l], key, hash)
      {
        assert TwoAt(c, k, l);
      }
    } else {
      forall q | q in Nodes(chains)
        ensures !IsFor(q, key, hash)
      {
        var n, l :| 0 <= n < |chains| && 0 <= l < |chains[n]| && chains[n][l] == q;
        assert IsFor(q, key, hash) ==> n == i;
      }
    }
  }

  lemma {:induction false} NodesReplaced(chains: seq<seq<Ptr>>, i: nat, c: seq<Ptr>)
    requires i < |chains| && Hashed(chains)
    ensures Nodes(chains[i := c]) == Nodes(chains) - (set p | p in chains[i]) + (set p | p in c)
  {
    var others: seq<seq<Ptr>> := chains[i := c];
    InBucket(chains, i);
    forall p | p in Nodes(chains) && p !in chains[i]
      ensures p in Nodes(others)
    {
      var n, l :| 0 <= n < |chains| && 0 <= l < |chains[n]| && chains[n][l] == p;
      assert others[n] == chains[n];
    }
    forall p | p in c
      ensures p in Nodes(others)
    {
      assert others[i] == c;
    }
    forall p | p in Nodes(others)
      ensures p in c || (p in Nodes(chains) && p !in chains[i])
    {
      var n, l :| 0 <= n < |others| && 0 <= l < |others[n]| && others[n][l] == p;
      assert n != i ==> chains[n][l].hash % |chains| == n;
    }
  }

  lemma {:induction false} OtherBuckets(list: seq<Ptr>, nextHash: map<Ptr, Ptr>, chains: seq<seq<Ptr>>, i: nat,
        j: nat, nextHash': map<Ptr, Ptr>)
    requires TableOk(list, nextHash, chains) && i < |chains| && j < |chains| && i != j
    requires forall p :: p in nextHash && p !in chains[i] ==>
        p in nextHash' && (p in Nodes(chains) ==> nextHash'[p] == nextHash[p])
    ensures Linked(chains[j], list[j], nextHash')
  {
    hide Unique;
    assert Linked(chains[j], list[j], nextHash);
    InBucket(chains, i);
    forall p | p in chains[j]
      ensures p in nextHash && p !in chains[i] && p in Nodes(chains)
    {
      var k :| 0 <= k < |chains[j]| && chains[j][k] == p;
      assert chains[j][k].hash % |chains| == j;
    }
    LinkedFrame(chains[j], list[j], nextHash, nextHash');
  }

  lemma {:induction false} StillHashed(chains: seq<seq<Ptr>>, i: nat, c: seq<Ptr>)
    requires Hashed(chains) && i < |chains| && forall p :: p in c ==> p.Node? && p.hash % |chains| == i
    ensures Hashed(chains[i := c])
  {
    var others: seq<seq<Ptr>> := chains[i := c];
    forall n: nat, k: nat | n < |others| && k < |others[n]|
      ensures others[n][k].Node? && others[n][k].hash % |others| == n
    {
      if n == i {
        assert others[n][k] in c;
      } else {
        assert others[n] == chains[n];
      }
    }
  }

  /** A bucket rebuilt, the others left alone. */
  lemma {:induction false} BucketRebuilt(list: seq<Ptr>, nextHash: map<Ptr, Ptr>, chains: seq<seq<Ptr>>, i: nat,
        c: seq<Ptr>, first: Ptr, nextHash': map<Ptr, Ptr>)
    requires TableOk(list, nextHash, chains) && i < |chains|
    requires Linked(c, first, nextHash') && Unique(c) && forall p :: p in c ==> p.Node? && p.hash % |chains| == i
    requires forall p :: p in nextHash && p !in chains[i] ==>
        p in nextHash' && (p in Nodes(chains) ==> nextHash'[p] == nextHash[p])
    ensures TableOk(list[i := first], nextHash', chains[i := c])
  {
    hide Unique, Nodes, Linked;
    StillHashed(chains, i, c);
    var chains', list' := chains[i := c], list[i := first];
    forall j | 0 <= j < |chains'|
      ensures Linked(chains'[j], list'[j], nextHash')
    {
      if j != i {
        OtherBuckets(list, nextHash, chains, i, j, nextHash');
      }
    }
  }

  lemma {:induction false} TableReplaced(list: seq<Ptr>, nextHash: map<Ptr, Ptr>, chains: seq<seq<Ptr>>, i: nat,
        k: nat, h: Ptr)
    requires TableOk(list, nextHash, chains) && i < |chains| && k <= |chains[i]|
    requires h.Node? && h.hash % |chains| == i && h !in Nodes(chains)
    requires forall l :: 0 <= l < |chains[i]| && l != k ==> !IsFor(chains[i][l], h.key, h.hash)
    ensures var c := chains[i]; var slot := SlotAt(c, i, k);
      && (k < |c| ==> c[k] in nextHash)
      && var links := nextHash[h := if k < |c| then nextHash[c[k]] else Null];
      && TableOk(if slot.Bucket? then list[i := h] else list, Links(slot, links, h), chains[i := WithAt(c, k, h)])
      && Nodes(chains[i := WithAt(c, k, h)]) == Nodes(chains) - (if k < |c| then {c[k]} else {}) + {h}
  {
    hide IsFor;
    var c := chains[i];
    var slot, c' := SlotAt(c, i, k), WithAt(c, k, h);
    assert Linked(c, list[i], nextHash) && Unique(c);
    InBucket(chains, i);
    assert h !in c;
    var links := nextHash[h := if k < |c| then nextHash[c[k]] else Null];
    ChainReplaced(c, list[i], nextHash, i, k, h);
    UniqueWithAt(c, k, h);
    BucketRebuilt(list, nextHash, chains, i, c', First0(slot, list[i], h), Links(slot, links, h));
    assert list[i := list[i]] == list;
    NodesReplaced(chains, i, c');
    SetWithAt(c, k, h);
  }

  lemma {:induction false} InBucket(chains: seq<seq<Ptr>>, i: nat)
    requires Hashed(chains) && i < |chains|
    ensures forall p :: p in chains[i] ==> p in Nodes(chains) && p.Node? && p.hash % |chains| == i
  {
    forall p | p in chains[i]
      ensures p in Nodes(chains) && p.Node? && p.hash % |chains| == i
    {
      var k :| 0 <= k < |chains[i]| && chains[i][k] == p;
    }
  }

  lemma {:induction false} SetWithAt(c: seq<Ptr>, k: nat, h: Ptr)
    requires k <= |c| && Unique(c) && h !in c && forall p :: p in c ==> p.Node?
    ensures (set p | p in WithAt(c, k, h)) == (set p | p in c) - (if k < |c| then {c[k]} else {}) + {h}
  {
    var c' := WithAt(c, k, h);
    forall p | p in c && !(k < |c| && p == c[k])
      ensures p in c'
    {
      var l :| 0 <= l < |c| && c[l] == p;
      assert c'[l] == p;
    }
    forall p | p in c'
      ensures p == h || (p in c && !(k < |c| && p == c[k]))
    {
      var l :| 0 <= l < |c'| && c'[l] == p;
      if l != k {
        assert c[l] == p;
        if k < |c| {
          Distinct(c, l, k);
        }
      }
    }
    assert c'[k] == h;
  }

  lemma {:induction false} SetWithoutAt(c: seq<Ptr>, k: nat)
    requires k < |c| && Unique(c) && forall p :: p in c ==> p.Node?
    ensures (set p | p in WithoutAt(c, k)) == (set p | p in c) - {c[k]}
  {
    var c' := WithoutAt(c, k);
    forall p | p in c && p != c[k]
      ensures p in c'
    {
      var l :| 0 <= l < |c| && c[l] == p;
      assert c'[if l < k then l else l - 1] == p;
    }
    forall p | p in c'
      ensures p in c && p != c[k]
    {
      var l :| 0 <= l < |c'| && c'[l] == p;
      var o := if l < k then l else l + 1;
      assert c[o] == p;
      Distinct(c, o, k);
    }
  }

  lemma {:induction false} TableRemoved(list: seq<Ptr>, nextHash: map<Ptr, Ptr>, chains: seq<seq<Ptr>>, i: nat, k: nat)
    requires TableOk(list, nextHash, chains) && i < |chains| && k < |chains[i]|
    ensures var c := chains[i]; var slot := SlotAt(c, i, k);
      && c[k] in nextHash
      && TableOk(if slot.Bucket? then list[i := nextHash[c[k]]] else list,
          Links(slot, nextHash, nextHash[c[k]]), chains[i := WithoutAt(c, k)])
      && Nodes(chains[i := WithoutAt(c, k)]) == Nodes(chains) - {c[k]}
  {
    hide IsFor;
    var c := chains[i];
    var slot, c' := SlotAt(c, i, k), WithoutAt(c, k);
    assert Linked(c, list[i], nextHash) && Unique(c);
    InBucket(chains, i);
    ChainRemoved(c, list[i], nextHash, i, k);
    UniqueWithoutAt(c, k);
    BucketRebuilt(list, nextHash, chains, i, c', First0(slot, list[i], nextHash[c[k]]),
        Links(slot, nextHash, nextHash[c[k]]));
    assert list[i := list[i]] == list;
    NodesReplaced(chains, i, c');
    SetWithoutAt(c, k);
  }

  // ----- resizing

  /** The entries of the buckets before `i`, and of bucket `i` those before `k`. */
  ghost function Moved(chains: seq<seq<Ptr>>, i: nat, k: nat): set<Ptr> {
    set a, b | 0 <= a < |chains| && 0 <= b < |chains[a]| && (a < i || (a == i && b < k)) :: chains[a][b]
  }

  /** The entries up to there are in the new list, the others still hang together. */
  ghost predicate Moving(chains: seq<seq<Ptr>>, i: nat, k: nat, list: seq<Ptr>, nextHash: map<Ptr, Ptr>,
        newList: seq<Ptr>, newChains: seq<seq<Ptr>>) {
    && |list| == |chains| && Hashed(chains) && (forall a :: 0 <= a < |chains| ==> Unique(chains[a]))
    && i <= |chains| && (i < |chains| ==> k <= |chains[i]|)
    && (i < |chains| ==> Linked(chains[i][k..], if k == 0 then list[i] else First(chains[i][k..]), nextHash))
    && (forall a :: i < a < |chains| ==> Linked(chains[a], list[a], nextHash))
    && TableOk(newList, nextHash, newChains)
    && Nodes(newChains) == Moved(chains, i, k)
  }

  lemma {:induction false} MovingStarts(chains: seq<seq<Ptr>>, list: seq<Ptr>, nextHash: map<Ptr, Ptr>,
        newList: seq<Ptr>, newChains: seq<seq<Ptr>>)
    requires TableOk(list, nextHash, chains) && |newList| == |newChains| > 0
    requires newList == seq(|newList|, _ => Null) && newChains == seq(|newList|, _ => [])
    ensures |list| == |chains| && Moving(chains, 0, 0, list, nextHash, newList, newChains) && |Nodes(newChains)| == 0
  {
    assert chains[0][0..] == chains[0];
    assert Nodes(newChains) == {} == Moved(chains, 0, 0);
  }

  lemma {:induction false} BucketStarts(chains: seq<seq<Ptr>>, i: nat, list: seq<Ptr>, nextHash: map<Ptr, Ptr>,
        newList: seq<Ptr>, newChains: seq<seq<Ptr>>)
    requires Moving(chains, i, 0, list, nextHash, newList, newChains) && i < |chains|
    ensures i < |list| && list[i] == First(chains[i]) && forall k :: 0 <= k < |chains[i]| ==> chains[i][k].Node?
  {
    assert chains[i][0..] == chains[i];
  }

  lemma {:induction false} BucketEnds(chains: seq<seq<Ptr>>, i: nat, k: nat, list: seq<Ptr>, nextHash: map<Ptr, Ptr>,
        newList: seq<Ptr>, newChains: seq<seq<Ptr>>)
    requires Moving(chains, i, k, list, nextHash, newList, newChains) && i < |chains| && k == |chains[i]|
    ensures Moving(chains, i + 1, 0, list, nextHash, newList, newChains)
  {
    if i + 1 < |chains| {
      assert chains[i + 1][0..] == chains[i + 1];
    }
    assert Moved(chains, i, k) == Moved(chains, i + 1, 0);
  }

  lemma {:induction false} MovingEnds(chains: seq<seq<Ptr>>, list: seq<Ptr>, nextHash: map<Ptr, Ptr>,
        newList: seq<Ptr>, newChains: seq<seq<Ptr>>)
    requires Moving(chains, |chains|, 0, list, nextHash, newList, newChains)
    ensures TableOk(newList, nextHash, newChains) && Nodes(newChains) == Nodes(chains)
  {
    hide TableOk, Linked, Hashed, Unique;
    MovedAll(chains);
  }

  lemma {:induction false} MovedAll(chains: seq<seq<Ptr>>)
    ensures Moved(chains, |chains|, 0) == Nodes(chains)
  {
    forall p | p in Nodes(chains)
      ensures p in Moved(chains, |chains|, 0)
    {
      var c :| c in chains && p in c;
      var a :| 0 <= a < |chains| && chains[a] == c;
      var b :| 0 <= b < |c| && c[b] == p;
      assert chains[a][b] == p;
    }
    forall p | p in Moved(chains, |chains|, 0)
      ensures p in Nodes(chains)
    {
      var a, b :| 0 <= a < |chains| && 0 <= b < |chains[a]| && (a < |chains| || (a == |chains| && b < 0)) &&
          chains[a][b] == p;
      var c := chains[a];
      assert c in chains && p in c;
    }
  }

  /** Different places hold different entries, for different keys. */
  lemma {:induction false} PlacesDiffer(chains: seq<seq<Ptr>>, a: nat, b: nat, c: nat, d: nat)
    requires Hashed(chains) && (forall n :: 0 <= n < |chains| ==> Unique(chains[n]))
    requires a < |chains| && b < |chains[a]| && c < |chains| && d < |chains[c]| && (a != c || b != d)
    ensures chains[c][d].Node? && !IsFor(chains[a][b], chains[c][d].key, chains[c][d].hash) &&
      chains[a][b] != chains[c][d]
  {
    assert chains[a][b].hash % |chains| == a && chains[c][d].hash % |chains| == c;
    if a == c {
      assert TwoAt(chains[a], d, b);
    }
  }

  lemma {:induction false} LinkedPushed(c: seq<Ptr>, first: Ptr, nextHash: map<Ptr, Ptr>, h: Ptr)
    requires Linked(c, first, nextHash) && h.Node? && h !in c
    ensures Linked([h] + c, h, nextHash[h := first])
  {
    var c', links := [h] + c, nextHash[h := first];
    forall l | 0 <= l < |c'|
      ensures c'[l].Node? && c'[l] in links && links[c'[l]] == After(c', l)
    {
      if l > 0 {
        assert c'[l] == c[l - 1] && c[l - 1] in c;
      }
    }
  }

  lemma {:induction false} ChainPushed(c: seq<Ptr>, first: Ptr, nextHash: map<Ptr, Ptr>, h: Ptr)
    requires Linked(c, first, nextHash) && Unique(c) && h.Node? && h !in c
    requires forall p :: p in c ==> !IsFor(p, h.key, h.hash)
    ensures Linked([h] + c, h, nextHash[h := first]) && Unique([h] + c)
  {
    var c' := [h] + c;
    LinkedPushed(c, first, nextHash, h);
    hide Linked;
    forall a, b | TwoAt(c', a, b) && c'[a].Node?
      ensures !IsFor(c'[b], c'[a].key, c'[a].hash)
    {
      assert a > 0 ==> c'[a] == c[a - 1] && c[a - 1] in c;
      assert b > 0 ==> c'[b] == c[b - 1] && c[b - 1] in c;
      if a > 0 && b > 0 {
        assert TwoAt(c, a - 1, b - 1);
      }
    }
  }

  /** An entry pushed onto the front of its new bucket. */
  lemma {:induction false} TablePushed(list: seq<Ptr>, nextHash: map<Ptr, Ptr>, chains: seq<seq<Ptr>>, h: Ptr)
    requires TableOk(list, nextHash, chains) && h.Node? && NoneFor(Nodes(chains), h.key, h.hash)
    ensures var i := h.hash % |chains|;
      && i < |list| && TableOk(list[i := h], nextHash[h := list[i]], chains[i := [h] + chains[i]])
      && Nodes(chains[i := [h] + chains[i]]) == Nodes(chains) + {h} && h !in Nodes(chains)
  {
    var i := h.hash % |chains|;
    var c := chains[i];
    assert Linked(c, list[i], nextHash) && Unique(c);
    InBucket(chains, i);
    assert IsFor(h, h.key, h.hash);
    ChainPushed(c, list[i], nextHash, h);
    BucketPushed(list, nextHash, chains, i, h);
    NodesReplaced(chains, i, [h] + c);
  }

  lemma {:induction false} BucketPushed(list: seq<Ptr>, nextHash: map<Ptr, Ptr>, chains: seq<seq<Ptr>>, i: nat, h: Ptr)
    requires TableOk(list, nextHash, chains) && i < |chains| && h.Node? && h.hash % |chains| == i && h !in Nodes(chains)
    requires Linked([h] + chains[i], h, nextHash[h := list[i]]) && Unique([h] + chains[i])
    ensures TableOk(list[i := h], nextHash[h := list[i]], chains[i := [h] + chains[i]])
  {
    hide Linked, Unique;
    InBucket(chains, i);
    BucketRebuilt(list, nextHash, chains, i, [h] + chains[i], h, nextHash[h := list[i]]);
  }

  lemma {:induction false} EntryMoves(chains: seq<seq<Ptr>>, i: nat, k: nat, list: seq<Ptr>, nextHash: map<Ptr, Ptr>,
        newList: seq<Ptr>, newChains: seq<seq<Ptr>>)
    requires Moving(chains, i, k, list, nextHash, newList, newChains) && i < |chains| && k < |chains[i]|
    ensures var h := chains[i][k];
      && h.Node? && h in nextHash && nextHash[h] == (if k + 1 < |chains[i]| then chains[i][k + 1] else Null)
      && |newChains| == |newList| > 0
      && var j := h.hash % |newChains|;
      && Moving(chains, i, k + 1, list, nextHash[h := newList[j]], newList[j := h], newChains[j := [h] + newChains[j]])
      && h !in Nodes(newChains) && Nodes(newChains[j := [h] + newChains[j]]) == Nodes(newChains) + {h}
  {
    hide TableOk, Unique;
    var h, left := chains[i][k], chains[i][k..];
    var rest := chains[i][k + 1..];
    assert left[0] == h && left[1..] == rest;
    NewlyMoved(chains, i, k, newChains);
    TableSize(newList, nextHash, newChains);
    var j := h.hash % |newChains|;
    var links := nextHash[h := newList[j]];
    TablePushed(newList, nextHash, newChains, h);
    forall l | 0 <= l < |rest|
      ensures rest[l].Node? && rest[l] in links && links[rest[l]] == After(rest, l)
    {
      assert rest[l] == left[l + 1] == chains[i][k + 1 + l];
      PlacesDiffer(chains, i, k, i, k + 1 + l);
      assert After(left, l + 1) == After(rest, l);
    }
    forall a | i < a < |chains|
      ensures Linked(chains[a], list[a], links)
    {
      forall p | p in chains[a]
        ensures p in nextHash && p != h
      {
        var b :| 0 <= b < |chains[a]| && chains[a][b] == p;
        PlacesDiffer(chains, i, k, a, b);
      }
      LinkedFrame(chains[a], list[a], nextHash, links);
    }
    assert Moved(chains, i, k + 1) == Moved(chains, i, k) + {h};
  }

  lemma {:induction false} TableSize(list: seq<Ptr>, nextHash: map<Ptr, Ptr>, chains: seq<seq<Ptr>>)
    requires TableOk(list, nextHash, chains)
    ensures |list| == |chains| > 0
  {
  }

  lemma {:induction false} NewlyMoved(chains: seq<seq<Ptr>>, i: nat, k: nat, newChains: seq<seq<Ptr>>)
    requires Hashed(chains) && (forall a :: 0 <= a < |chains| ==> Unique(chains[a])) && i < |chains| && k < |chains[i]|
    requires Nodes(newChains) == Moved(chains, i, k)
    ensures chains[i][k].Node? && NoneFor(Nodes(newChains), chains[i][k].key, chains[i][k].hash)
  {
    hide Unique, Nodes;
    forall q | q in Moved(chains, i, k)
      ensures !IsFor(q, chains[i][k].key, chains[i][k].hash)
    {
      var a, b :| 0 <= a < |chains| && 0 <= b < |chains[a]| && (a < i || (a == i && b < k)) && chains[a][b] == q;
      PlacesDiffer(chains, a, b, i, k);
    }
  }
}
