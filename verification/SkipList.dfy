/** The memtable's skip list: one writer, readers that take no lock. */
module SkipList {
  import opened ByteStrings
  import opened Reads

  const MAX_HEIGHT := 12

  datatype Node = Head | At(key: Bytes) | Nil

  /** The links stored in the nodes of one level. */
  type Links = map<Node, Node>

  /** The node comes before the key; the head comes before everything. */
  ghost predicate Precedes(x: Node, k: Bytes) {
    x.Head? || (x.At? && Rank(x.key) < Rank(k))
  }

  /** `n` is the first of the keys after node `x`, or nil if there is none. */
  ghost predicate IsNext(keys: set<Bytes>, x: Node, n: Node) {
    match n
    case Head => false
    case Nil => forall k :: k in keys ==> !Precedes(x, k)
    case At(m) => m in keys && Precedes(x, m) && forall k :: k in keys && Precedes(x, k) ==> Rank(m) <= Rank(k)
  }

  /** A node that has been linked into a level with these keys. */
  ghost predicate On(keys: set<Bytes>, x: Node) {
    x.Head? || (x.At? && x.key in keys)
  }

  /** Every linked node points to the next key, so the level is a sorted list. */
  ghost predicate LevelOk(next: Links, keys: set<Bytes>) {
    forall x :: On(keys, x) ==> x in next && IsNext(keys, x, next[x])
  }

  /** All levels are sorted lists, each a sublist of the one below. */
  ghost predicate ListOk(links: seq<Links>, keys: seq<set<Bytes>>, maxHeight: nat) {
    && |links| == |keys| == MAX_HEIGHT
    && 1 <= maxHeight <= MAX_HEIGHT
    && (forall i :: 0 <= i < MAX_HEIGHT ==> LevelOk(links[i], keys[i]))
    && (forall i :: 0 < i < MAX_HEIGHT ==> keys[i] <= keys[i - 1])
    && (forall i :: maxHeight <= i < MAX_HEIGHT ==> keys[i] == {})
  }

  /** `p` is the last node of the level before `key`. */
  ghost predicate IsPrev(keys: set<Bytes>, key: Bytes, p: Node) {
    && On(keys, p)
    && Precedes(p, key)
    && forall k :: k in keys && Rank(k) < Rank(key) ==> !Precedes(p, k)
  }

  /** The key lies after the node's; no key stands for the end of the list. */
  predicate KeyIsAfterNode(key: Option<Bytes>, n: Node) {
    n.At? && (key.None? || CompareBytes(n.key, key.value) < 0)
  }

  ghost predicate NodeBefore(x: Node, key: Option<Bytes>) {
    key.None? || Precedes(x, key.value)
  }

  /** `n` is the first key at or after the target, or nil if there is none. */
  ghost predicate IsFirstFrom(keys: set<Bytes>, target: Option<Bytes>, n: Node) {
    match n
    case Head => false
    case Nil => forall k :: k in keys ==> NodeBefore(At(k), target)
    case At(m) => m in keys && !NodeBefore(n, target) && forall k :: k in keys && !NodeBefore(At(k), target) ==>
        Rank(m) <= Rank(k)
  }

  /** Copying the predecessor's link into the new node, then pointing the predecessor
      at it, adds the key to the level and keeps it a sorted list. */
  lemma {:induction false} PublishKeepsLevel(next: Links, keys: set<Bytes>, key: Bytes, p: Node)
    requires LevelOk(next, keys) && IsPrev(keys, key, p) && key !in keys
    requires At(key) in next && p in next && next[At(key)] == next[p]
    ensures LevelOk(next[p := At(key)], keys + {key})
  {
    var next', keys' := next[p := At(key)], keys + {key};
    assert On(keys, p);
    forall x | On(keys', x)
      ensures x in next' && IsNext(keys', x, next'[x])
    {
      if x != p && x != At(key) {
        assert On(keys, x);
      }
    }
  }

  /** Writing the link of a node not yet on the level is invisible. */
  lemma {:induction false} PrepareKeepsLevel(next: Links, keys: set<Bytes>, key: Bytes, n: Node)
    requires LevelOk(next, keys) && key !in keys
    ensures LevelOk(next[At(key) := n], keys)
  {
    forall x | On(keys, x)
      ensures x in next[At(key) := n] && IsNext(keys, x, next[At(key) := n][x])
    {
      assert x != At(key);
    }
  }

  /** Keys of the list still between the node and the target. */
  ghost function Ahead(keys: set<Bytes>, x: Node, key: Option<Bytes>): set<Bytes> {
    set k | k in keys && Precedes(x, k) && NodeBefore(At(k), key)
  }

  lemma {:induction false} OnBottom(links: seq<Links>, keys: seq<set<Bytes>>, maxHeight: nat, level: nat, x: Node)
    requires ListOk(links, keys, maxHeight) && level < MAX_HEIGHT && On(keys[level], x)
    ensures On(keys[0], x)
    decreases level
  {
    if level > 0 {
      OnBottom(links, keys, maxHeight, level - 1, x);
    }
  }

  /** Moving right along any level leaves at least one key behind. */
  lemma {:induction false} MovesOn(links: seq<Links>, keys: seq<set<Bytes>>, maxHeight: nat, level: nat, x: Node,
        key: Option<Bytes>)
    requires ListOk(links, keys, maxHeight) && level < MAX_HEIGHT && On(keys[level], x)
    requires x in links[level] && KeyIsAfterNode(key, links[level][x])
    ensures On(keys[level], links[level][x]) && NodeBefore(links[level][x], key)
    ensures |Ahead(keys[0], links[level][x], key)| < |Ahead(keys[0], x, key)|
  {
    var n := links[level][x];
    assert LevelOk(links[level], keys[level]) && IsNext(keys[level], x, n);
    OnBottom(links, keys, maxHeight, level, n);
    var before, after := Ahead(keys[0], x, key), Ahead(keys[0], n, key);
    assert n.key in before && n.key !in after && after <= before;
    Smaller(after, before, n.key);
  }

  lemma {:induction false} Smaller(a: set<Bytes>, b: set<Bytes>, k: Bytes)
    requires a <= b && k in b && k !in a
    ensures |a| < |b|
  {
    assert a <= b - {k};
    SubsetSize(a, b - {k});
  }

  lemma {:induction false} SubsetSize(a: set<Bytes>, b: set<Bytes>)
    requires a <= b
    ensures |a| <= |b|
    decreases a
  {
    if k :| k in a {
      SubsetSize(a - {k}, b - {k});
    }
  }

  class SkipList {
    var links: seq<Links>
    var maxHeight: nat
    /** The keys linked into each level. */
    ghost var keys: seq<set<Bytes>>

    ghost predicate Valid()
      reads this
    {
      ListOk(links, keys, maxHeight)
    }

    constructor ()
      ensures Valid() && keys[0] == {}
    {
      links, maxHeight := seq(MAX_HEIGHT, _ => map[Head := Nil]), 1;
      keys := seq(MAX_HEIGHT, _ => {});
    }

    /** The first key at or after the given one; `prev`, if there, receives the last
        node before it on every level. */
    method FindGreaterOrEqual(key: Bytes, prev: array?<Node>) returns (n: Node)
      requires Valid() && (prev != null ==> prev.Length == MAX_HEIGHT)
      modifies prev
      ensures prev != null ==> forall i :: 0 <= i < maxHeight ==> IsPrev(keys[i], key, prev[i])
      ensures IsFirstFrom(keys[0], Some(key), n)
    {
      var x := Head;
      var level := maxHeight - 1;
      while true
        invariant 0 <= level < maxHeight
        invariant On(keys[level], x) && Precedes(x, key)
        invariant prev != null ==> forall i :: level < i < maxHeight ==> IsPrev(keys[i], key, prev[i])
        decreases level + |Ahead(keys[0], x, Some(key))|
      {
        var next := links[level][x];
        if KeyIsAfterNode(Some(key), next) {
          MovesOn(links, keys, maxHeight, level, x, Some(key));
          x := next;
        } else {
          if prev != null {
            prev[level] := x;
          }
          if level == 0 {
            return next;
          } else {
            level := level - 1;
          }
        }
      }
    }

    /** The last node before the key: the head if there is none. */
    method FindLessThan(key: Bytes) returns (x: Node)
      requires Valid()
      ensures IsPrev(keys[0], key, x)
    {
      x := Head;
      var level := maxHeight - 1;
      while true
        invariant 0 <= level < maxHeight
        invariant On(keys[level], x) && Precedes(x, key)
        decreases level + |Ahead(keys[0], x, Some(key))|
      {
        var next := links[level][x];
        if next == Nil || !KeyIsAfterNode(Some(key), next) {
          if level == 0 {
            return x;
          } else {
            level := level - 1;
          }
        } else {
          MovesOn(links, keys, maxHeight, level, x, Some(key));
          x := next;
        }
      }
    }

    /** The last node of the list: the head if it is empty. */
    method FindLast() returns (x: Node)
      requires Valid()
      ensures On(keys[0], x) && forall k :: k in keys[0] ==> !Precedes(x, k)
    {
      x := Head;
      var level := maxHeight - 1;
      while true
        invariant 0 <= level < maxHeight
        invariant On(keys[level], x)
        decreases level + |Ahead(keys[0], x, None)|
      {
        var next := links[level][x];
        if next == Nil {
          if level == 0 {
            return x;
          } else {
            level := level - 1;
          }
        } else {
          MovesOn(links, keys, maxHeight, level, x, None);
          x := next;
        }
      }
    }

    /** Links the key into the lowest `height` levels, bottom up. */
    method Insert(key: Bytes, height: nat)
      requires Valid() && key !in keys[0]
      requires 1 <= height <= MAX_HEIGHT
      modifies this
      ensures Valid()
      ensures forall i :: 0 <= i < MAX_HEIGHT ==> keys[i] == old(keys[i]) + if i < height then {key} else {}
    {
      hide IsFirstFrom, LevelOk, IsPrev;
      var prev := new Node[MAX_HEIGHT];
      var x := FindGreaterOrEqual(key, prev);
      NotAbove(links, keys, maxHeight, key);
      if height > maxHeight {
        RaiseHeight(key, height, prev);
      }
      ghost var before := prev[..];
      for i := 0 to height
        invariant Valid() && height <= maxHeight && prev[..] == before
        invariant forall j :: 0 <= j < i ==> keys[j] == old(keys[j]) + {key}
        invariant forall j :: i <= j < MAX_HEIGHT ==> keys[j] == old(keys[j])
      {
        assert IsPrev(keys[i], key, before[i]);
        Link(i, key, prev[i]);
      }
    }

    /** The new node is the first above the old height, right after the head. */
    method RaiseHeight(key: Bytes, height: nat, prev: array<Node>)
      requires Valid() && maxHeight < height <= MAX_HEIGHT && prev.Length == MAX_HEIGHT
      requires forall i :: 0 <= i < maxHeight ==> IsPrev(keys[i], key, prev[i])
      modifies `maxHeight, prev
      ensures Valid() && maxHeight == height
      ensures forall i :: 0 <= i < height ==> IsPrev(keys[i], key, prev[i])
    {
      for i := maxHeight to height
        invariant maxHeight == old(maxHeight)
        invariant forall j :: 0 <= j < i ==> IsPrev(keys[j], key, prev[j])
      {
        prev[i] := Head;
      }
      maxHeight := height;
    }

    /** One turn of the linking loop: the new node first gets its own link, then the
        node before it is made to point at it. */
    method Link(level: nat, key: Bytes, p: Node)
      requires Valid() && level < maxHeight && key !in keys[level] && IsPrev(keys[level], key, p)
      requires level > 0 ==> key in keys[level - 1]
      modifies `links, `keys
      ensures Valid() && keys == old(keys)[level := old(keys[level]) + {key}]
    {
      PrepareKeepsLevel(links[level], keys[level], key, links[level][p]);
      links := links[level := links[level][At(key) := links[level][p]]];
      PublishKeepsLevel(links[level], keys[level], key, p);
      links := links[level := links[level][p := At(key)]];
      keys := keys[level := keys[level] + {key}];
    }
  }

  lemma {:induction false} NotAbove(links: seq<Links>, keys: seq<set<Bytes>>, maxHeight: nat, key: Bytes)
    requires ListOk(links, keys, maxHeight) && key !in keys[0]
    ensures forall i :: 0 <= i < MAX_HEIGHT ==> key !in keys[i]
  {
    forall i | 0 <= i < MAX_HEIGHT
      ensures key !in keys[i]
    {
      if key in keys[i] {
        assert On(keys[i], At(key));
        OnBottom(links, keys, maxHeight, i, At(key));
      }
    }
  }
}
