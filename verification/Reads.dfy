/** What a read at a snapshot returns: the newest visible entry decides. */
module Reads {
  import opened ByteStrings
  import opened InternalKeys

  datatype Option<+T> = None | Some(value: T)

  predicate VisibleTo(e: Entry, user: Bytes, s: SequenceNumber) {
    e.key.user == user && e.key.seqno <= s
  }

  /** `e` is the newest entry of `user` in `es` that snapshot `s` can see. */
  ghost predicate Newest(es: set<Entry>, user: Bytes, s: SequenceNumber, e: Entry) {
    && e in es
    && VisibleTo(e, user, s)
    && forall d :: d in es && VisibleTo(d, user, s) ==> Tag(d.key) <= Tag(e.key)
  }

  /** No two entries carry the same internal key. */
  ghost predicate UniqueKeys(es: set<Entry>) {
    forall d, e :: d in es && e in es && d.key == e.key ==> d == e
  }

  /** A deleted key reads as an absent one. */
  function Outcome(e: Entry): Option<Bytes> {
    if e.key.kind == Value then Some(e.value) else None
  }

  ghost function Read(es: set<Entry>, user: Bytes, s: SequenceNumber): Option<Bytes> {
    if exists e :: Newest(es, user, s, e)
    then var e :| Newest(es, user, s, e); Outcome(e)
    else None
  }

  lemma {:induction false} ReadNewest(es: set<Entry>, user: Bytes, s: SequenceNumber, e: Entry)
    requires UniqueKeys(es) && Newest(es, user, s, e)
    ensures Read(es, user, s) == Outcome(e)
  {
    var d: Entry :| Newest(es, user, s, d) && Read(es, user, s) == Outcome(d);
    assert Newest(es, user, s, d);
    assert VisibleTo(d, user, s) && VisibleTo(e, user, s);
    assert d.key == e.key;
  }

  lemma {:induction false} NewestExists(es: set<Entry>, user: Bytes, s: SequenceNumber, d: Entry)
    requires d in es && VisibleTo(d, user, s)
    ensures exists e :: Newest(es, user, s, e)
    decreases es
  {
    var rest := es - {d};
    if c :| c in rest && VisibleTo(c, user, s) {
      NewestExists(rest, user, s, c);
      var e :| Newest(rest, user, s, e);
      assert Newest(es, user, s, if Tag(d.key) <= Tag(e.key) then e else d);
    } else {
      assert Newest(es, user, s, d);
    }
  }

  function Contents(es: seq<Entry>): set<Entry> {
    set e | e in es
  }

  lemma {:induction false} SortedUnique(es: seq<Entry>)
    requires Sorted(es)
    ensures UniqueKeys(Contents(es))
  {
    forall d, e | d in es && e in es && d.key == e.key
      ensures d == e
    {
      var i :| 0 <= i < |es| && es[i] == d;
      var j :| 0 <= j < |es| && es[j] == e;
      assert i < j ==> Before(es[i].key, es[j].key);
      assert j < i ==> Before(es[j].key, es[i].key);
    }
  }
}
