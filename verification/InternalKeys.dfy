/** Internal keys: a user key with a sequence number and a value type. */
module InternalKeys {
  import opened ByteStrings

  const NUM_LEVELS: nat := 7

  datatype Kind = Deletion | Value

  /** Sequence numbers leave eight bits of a 64-bit tag for the value type. */
  const MAX_SEQUENCE: nat := 0xff_ffff_ffff_ffff

  type SequenceNumber = n: nat | n <= MAX_SEQUENCE

  datatype IKey = IKey(user: Bytes, seqno: SequenceNumber, kind: Kind)

  datatype Entry = Entry(key: IKey, value: Bytes)

  /** The 64-bit trailer of an encoded internal key: `(sequence << 8) | type`. */
  function Tag(k: IKey): nat {
    k.seqno * 256 + (if k.kind.Value? then 1 else 0)
  }

  /** Increasing user key, then decreasing tag. */
  ghost predicate Before(a: IKey, b: IKey) {
    Rank(a.user) < Rank(b.user) || (a.user == b.user && Tag(a) > Tag(b))
  }

  /** The internal key comparator. */
  function Compare(a: IKey, b: IKey): (r: int)
    ensures r < 0 <==> Before(a, b)
    ensures r > 0 <==> Before(b, a)
    ensures r == 0 <==> a == b
  {
    var r := CompareBytes(a.user, b.user);
    if r != 0 then r
    else if Tag(a) > Tag(b) then -1
    else if Tag(a) < Tag(b) then 1
    else 0
  }

  lemma {:induction false} Trichotomy(a: IKey, b: IKey)
    ensures Before(a, b) || Before(b, a) || a == b
    ensures !(Before(a, b) && Before(b, a))
  {
    assert Compare(a, b) < 0 || Compare(a, b) > 0 || Compare(a, b) == 0;
  }

  /** "At or before" is transitive. */
  lemma {:induction false} AtOrBefore(a: IKey, b: IKey, c: IKey)
    requires !Before(b, a) && !Before(c, b)
    ensures !Before(c, a)
  {
    hide Rank;
    Trichotomy(a, b);
    Trichotomy(b, c);
  }

  /** Strictly increasing internal keys, as in a table or a memtable. */
  ghost predicate Sorted(es: seq<Entry>) {
    forall i, j {:trigger Before(es[i].key, es[j].key)} ::
      0 <= i < j < |es| ==> Before(es[i].key, es[j].key)
  }

  /** User keys never decrease along sorted entries. */
  lemma {:induction false} UsersAscend(es: seq<Entry>, q: nat)
    requires Sorted(es) && q < |es|
    ensures forall j :: 0 <= j <= q ==> Rank(es[j].key.user) <= Rank(es[q].key.user)
    ensures forall j :: q <= j < |es| ==> Rank(es[q].key.user) <= Rank(es[j].key.user)
  {
    forall j | 0 <= j < q
      ensures Rank(es[j].key.user) <= Rank(es[q].key.user)
    {
      assert Before(es[j].key, es[q].key);
    }
    forall j | q < j < |es|
      ensures Rank(es[q].key.user) <= Rank(es[j].key.user)
    {
      assert Before(es[q].key, es[j].key);
    }
  }

  /** The key a lookup at snapshot `s` seeks to: it precedes exactly the entries
      of `user` that are visible at `s`, and all later user keys. */
  function SeekKey(user: Bytes, s: SequenceNumber): IKey {
    IKey(user, s, Value)
  }
}
