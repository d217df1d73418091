/** Short keys that still separate: index keys need not be keys of the table. */
module Separators {
  import opened ByteStrings
  import opened InternalKeys

  lemma {:induction false} SamePrefix(p: Bytes, a: Bytes, b: Bytes)
    ensures CompareBytes(p + a, p + b) == CompareBytes(a, b)
  {
    if p == [] {
      assert p + a == a && p + b == b;
    } else {
      assert (p + a)[1..] == p[1..] + a && (p + b)[1..] == p[1..] + b;
      SamePrefix(p[1..], a, b);
    }
  }

  /** The first differing byte decides. */
  lemma {:induction false} DiffersAt(a: Bytes, b: Bytes, d: nat)
    requires d < |a| && d < |b| && a[..d] == b[..d] && a[d] < b[d]
    ensures Rank(a) < Rank(b)
  {
    assert a == a[..d] + a[d..] && b == b[..d] + b[d..];
    SamePrefix(a[..d], a[d..], b[d..]);
    assert CompareBytes(a, b) < 0;
  }

  /** The start, cut after a byte that can be raised and still stay below the limit. */
  function Separator(start: Bytes, limit: Bytes): (r: Bytes)
    ensures |r| <= |start|
  {
    var d := Common(start, limit);
    if d < |start| && d < |limit| && start[d] < 0xff && start[d] + 1 < limit[d] then start[..d] + [start[d] + 1]
    else start
  }

  lemma {:induction false} SeparatorSeparates(start: Bytes, limit: Bytes)
    ensures var r := Separator(start, limit);
      r == start || Rank(start) < Rank(r) < Rank(limit)
  {
    var d, r := Common(start, limit), Separator(start, limit);
    if r != start {
      assert r[..d] == start[..d] == limit[..d];
      DiffersAt(start, r, d);
      DiffersAt(r, limit, d);
    }
  }

  /** Behind a common part the separator is cut to one byte, raised by one, whenever that stays below the
      limit, and otherwise it is the start. */
  lemma {:induction false} SeparatorShortens(start: Bytes, limit: Bytes, d: nat)
    requires d < |start| && d < |limit| && start[..d] == limit[..d] && start[d] != limit[d]
    ensures start[d] as int + 1 < limit[d] as int ==>
      Separator(start, limit) == start[..d] + [(start[d] as int + 1) as Byte]
    ensures start[d] as int + 1 >= limit[d] as int ==> Separator(start, limit) == start
  {
    CommonIs(start, limit, d);
  }

  /** ... as it is when one of the two is the beginning of the other. */
  lemma {:induction false} SeparatorOfPrefix(start: Bytes, limit: Bytes)
    requires start <= limit || limit <= start
    ensures Separator(start, limit) == start
  {
    CommonIs(start, limit, if |start| < |limit| then |start| else |limit|);
  }

  method FindShortestSeparator(start: Bytes, limit: Bytes) returns (r: Bytes)
    ensures r == Separator(start, limit)
  {
    var least := if |start| < |limit| then |start| else |limit|;
    var d := 0;
    while d < least && start[d] == limit[d]
      invariant d <= least && start[..d] == limit[..d]
    {
      d := d + 1;
    }
    CommonIs(start, limit, d);
    r := start;
    if d < least {
      var diff := start[d];
      if diff < 0xff && diff + 1 < limit[d] {
        r := r[d := diff + 1];
        r := r[..d + 1];
      }
    }
  }

  /** The key, cut after the first byte that can be raised. */
  function Successor(key: Bytes): (r: Bytes)
    ensures |r| <= |key|
  {
    if key == [] then []
    else if key[0] != 0xff then [key[0] + 1]
    else [key[0]] + Successor(key[1..])
  }

  lemma {:induction false} SuccessorFollows(key: Bytes)
    ensures Rank(key) <= Rank(Successor(key))
  {
    if key != [] {
      var r := Successor(key);
      if key[0] != 0xff {
        DiffersAt(key, r, 0);
      } else {
        SuccessorFollows(key[1..]);
        assert r[1..] == Successor(key[1..]);
        assert CompareBytes(key, r) == CompareBytes(key[1..], r[1..]) <= 0;
      }
    }
  }

  /** The successor ends with the first byte that can be raised. */
  lemma {:induction false} SuccessorShortens(key: Bytes, d: nat)
    requires d <= |key| && forall i :: 0 <= i < d ==> key[i] == 0xff
    ensures d < |key| && key[d] != 0xff ==> Successor(key) == key[..d] + [(key[d] as int + 1) as Byte]
    ensures d == |key| ==> Successor(key) == key
  {
    if d > 0 {
      SuccessorShortens(key[1..], d - 1);
      assert key == [key[0]] + key[1..] && key[..d] == [key[0]] + key[1..][..d - 1];
    }
  }

  method FindShortSuccessor(key: Bytes) returns (r: Bytes)
    ensures r == Successor(key)
  {
    var i := 0;
    while i < |key|
      invariant i <= |key| && Successor(key) == key[..i] + Successor(key[i..])
    {
      var b := key[i];
      if b != 0xff {
        r := key[i := b + 1];
        r := r[..i + 1];
        return;
      }
      assert key[..i + 1] + Successor(key[i + 1..]) == key[..i] + ([b] + Successor(key[i..][1..]));
      i := i + 1;
    }
    assert key[..i] == key;
    r := key;
  }

  /** The earliest internal key of a user key. */
  function Earliest(user: Bytes): IKey {
    IKey(user, MAX_SEQUENCE, Kind.Value)
  }

  /** Only the user part is shortened, and only if it becomes physically shorter but
      logically larger. */
  function InternalSeparator(start: IKey, limit: IKey): IKey {
    var t := Separator(start.user, limit.user);
    if |t| < |start.user| && CompareBytes(start.user, t) < 0 then Earliest(t) else start
  }

  lemma {:induction false} InternalSeparatorShortens(start: IKey, limit: IKey)
    ensures var t := Separator(start.user, limit.user);
      InternalSeparator(start, limit) ==
        if |t| < |start.user| && Rank(start.user) < Rank(t) then IKey(t, MAX_SEQUENCE, Kind.Value) else start
  {
    hide Rank, Separator;
    assert CompareBytes(start.user, Separator(start.user, limit.user)) < 0 <==>
        Rank(start.user) < Rank(Separator(start.user, limit.user));
  }

  function InternalSuccessor(key: IKey): IKey {
    var t := Successor(key.user);
    if |t| < |key.user| && CompareBytes(key.user, t) < 0 then Earliest(t) else key
  }

  method FindInternalSeparator(start: IKey, limit: IKey) returns (r: IKey)
    ensures r == InternalSeparator(start, limit)
  {
    var t := FindShortestSeparator(start.user, limit.user);
    r := start;
    if |t| < |start.user| && CompareBytes(start.user, t) < 0 {
      r := Earliest(t);
    }
  }

  method FindInternalSuccessor(key: IKey) returns (r: IKey)
    ensures r == InternalSuccessor(key)
  {
    var t := FindShortSuccessor(key.user);
    r := key;
    if |t| < |key.user| && CompareBytes(key.user, t) < 0 {
      r := Earliest(t);
    }
  }

  /** At or after the start, before the limit, and if not the start itself then of a user
      key of its own, strictly between the two. */
  ghost predicate Separates(start: IKey, r: IKey, limit: IKey) {
    r == start || Rank(start.user) < Rank(r.user) < Rank(limit.user)
  }

  lemma {:induction false} InternalSeparatorSeparates(start: IKey, limit: IKey)
    requires Before(start, limit)
    ensures var r := InternalSeparator(start, limit);
      Separates(start, r, limit) && !Before(r, start) && Before(r, limit)
  {
    SeparatorSeparates(start.user, limit.user);
    Trichotomy(start, InternalSeparator(start, limit));
  }

  lemma {:induction false} InternalSuccessorFollows(key: IKey)
    ensures !Before(InternalSuccessor(key), key)
  {
    Trichotomy(key, InternalSuccessor(key));
  }
}
