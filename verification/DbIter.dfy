/** The user-facing iterator: folds the versions of each user key into one item. */
module DbIter {
  import opened ByteStrings
  import opened InternalKeys
  import opened Cursors
  import opened Reads

  datatype Pair = Pair(key: Bytes, value: Bytes)

  predicate Visible(es: seq<Entry>, s: SequenceNumber, i: nat)
    requires i < |es|
  {
    es[i].key.seqno <= s
  }

  /** Entry `i` is what a reader at snapshot `s` sees for its user key. */
  predicate Live(es: seq<Entry>, s: SequenceNumber, i: nat)
    requires i < |es|
  {
    && Visible(es, s, i)
    && es[i].key.kind == Value
    && forall j {:trigger Visible(es, s, j)} :: 0 <= j < i && Visible(es, s, j) ==> es[j].key.user != es[i].key.user
  }

  /** The live items among the first `n` entries, in order. */
  function View(es: seq<Entry>, s: SequenceNumber, n: nat): seq<Pair>
    requires n <= |es|
  {
    if n == 0 then []
    else
      View(es, s, n - 1) +
      if Live(es, s, n - 1) then [Pair(es[n - 1].key.user, es[n - 1].value)] else []
  }

  /** A live entry is a visible value that no visible entry of its key precedes. */
  lemma {:induction false} Liveness(es: seq<Entry>, s: SequenceNumber, i: nat)
    requires i < |es|
    ensures Live(es, s, i) ==> Visible(es, s, i) && es[i].key.kind == Value
    ensures Live(es, s, i) ==> forall j {:trigger Visible(es, s, j)} :: 0 <= j < i && Visible(es, s, j) ==>
        es[j].key.user != es[i].key.user
    ensures
      || Live(es, s, i) || !Visible(es, s, i) || es[i].key.kind != Value
      || exists j {:trigger Visible(es, s, j)} :: 0 <= j < i && Visible(es, s, j) && es[j].key.user == es[i].key.user
  {
  }

  lemma {:induction false} ViewSkip(es: seq<Entry>, s: SequenceNumber, a: nat, b: nat)
    requires a <= b <= |es|
    requires forall i :: a <= i < b ==> !Live(es, s, i)
    ensures View(es, s, a) == View(es, s, b)
    decreases b
  {
    if a < b {
      ViewSkip(es, s, a, b - 1);
      assert !Live(es, s, b - 1);
    }
  }

  lemma {:induction false} ViewPrefix(es: seq<Entry>, s: SequenceNumber, a: nat, b: nat)
    requires a <= b <= |es|
    ensures View(es, s, a) <= View(es, s, b)
    decreases b
  {
    if a < b {
      ViewPrefix(es, s, a, b - 1);
    }
  }

  /** The rank of a live entry locates its item in the whole view. */
  lemma {:induction false} ViewAt(es: seq<Entry>, s: SequenceNumber, i: nat)
    requires i < |es| && Live(es, s, i)
    ensures |View(es, s, i)| < |View(es, s, |es|)|
    ensures View(es, s, |es|)[|View(es, s, i)|] == Pair(es[i].key.user, es[i].value)
  {
    ViewPrefix(es, s, i + 1, |es|);
  }

  /** From one live entry to the next, the view grows by one item. */
  lemma {:induction false} OneLiveBetween(es: seq<Entry>, s: SequenceNumber, c: nat, d: nat)
    requires c < d <= |es| && Live(es, s, c)
    requires forall i :: c < i < d ==> !Live(es, s, i)
    ensures |View(es, s, d)| == |View(es, s, c)| + 1
  {
    ViewSkip(es, s, c + 1, d);
  }

  lemma {:induction false} ViewBelow(es: seq<Entry>, s: SequenceNumber, n: nat, target: Bytes)
    requires n <= |es|
    requires forall i :: 0 <= i < n && Live(es, s, i) ==> Rank(es[i].key.user) < Rank(target)
    ensures forall p :: p in View(es, s, n) ==> Rank(p.key) < Rank(target)
  {
    hide Rank;
    if n > 0 {
      ViewBelow(es, s, n - 1, target);
    }
  }

  lemma {:induction false} ViewMember(es: seq<Entry>, s: SequenceNumber, n: nat, p: Pair) returns (i: nat)
    requires n <= |es| && p in View(es, s, n)
    ensures i < n && Live(es, s, i) && p == Pair(es[i].key.user, es[i].value)
  {
    if p in View(es, s, n - 1) {
      i := ViewMember(es, s, n - 1, p);
    } else {
      i := n - 1;
    }
  }

  /** Each user key appears once, in order. */
  lemma {:induction false} ViewAscends(es: seq<Entry>, s: SequenceNumber, n: nat)
    requires Sorted(es) && n <= |es|
    ensures forall a, b :: 0 <= a < b < |View(es, s, n)| ==> Rank(View(es, s, n)[a].key) < Rank(View(es, s, n)[b].key)
  {
    if n > 0 {
      ViewAscends(es, s, n - 1);
      UsersAscend(es, n - 1);
      if Live(es, s, n - 1) {
        ViewBelow(es, s, n - 1, es[n - 1].key.user);
      }
    }
  }

  lemma {:induction false} ViewIsNewest(es: seq<Entry>, s: SequenceNumber, p: Pair)
    requires Sorted(es) && p in View(es, s, |es|)
    ensures Read(Contents(es), p.key, s) == Some(p.value)
  {
    hide Rank, View;
    SortedUnique(es);
    var i := ViewMember(es, s, |es|, p);
    forall d | d in Contents(es) && VisibleTo(d, p.key, s)
      ensures Tag(d.key) <= Tag(es[i].key)
    {
      var j :| 0 <= j < |es| && es[j] == d;
      assert Visible(es, s, j);
      assert i < j ==> Before(es[i].key, es[j].key);
    }
    ReadNewest(Contents(es), p.key, s, es[i]);
  }

  lemma {:induction false} NewestIsInView(es: seq<Entry>, s: SequenceNumber, e: Entry)
    requires Sorted(es) && Newest(Contents(es), e.key.user, s, e) && Outcome(e) == Some(e.value)
    ensures Pair(e.key.user, e.value) in View(es, s, |es|)
  {
    hide Rank, View;
    var i :| 0 <= i < |es| && es[i] == e;
    forall j | 0 <= j < i && Visible(es, s, j)
      ensures es[j].key.user != e.key.user
    {
      assert es[j] in Contents(es);
      assert Before(es[j].key, es[i].key);
      assert es[j].key.user == e.key.user ==> VisibleTo(es[j], e.key.user, s);
    }
    ViewAt(es, s, i);
  }

  /** The view holds exactly the reads at the snapshot that find a value. */
  lemma {:induction false} ViewMatchesReads(es: seq<Entry>, s: SequenceNumber, user: Bytes, value: Bytes)
    requires Sorted(es)
    ensures Pair(user, value) in View(es, s, |es|) <==> Read(Contents(es), user, s) == Some(value)
  {
    hide View, Newest, Sorted;
    if Pair(user, value) in View(es, s, |es|) {
      ViewIsNewest(es, s, Pair(user, value));
    }
    if Read(Contents(es), user, s) == Some(value) {
      var e := ReadFinds(Contents(es), user, s);
      NewestIsInView(es, s, e);
    }
  }

  lemma {:induction false} ReadFinds(entries: set<Entry>, user: Bytes, s: SequenceNumber) returns (e: Entry)
    requires Read(entries, user, s).Some?
    ensures Newest(entries, user, s, e) && e.key.user == user && Outcome(e) == Some(e.value) == Read(entries, user, s)
  {
    e :| Newest(entries, user, s, e) && Outcome(e) == Read(entries, user, s);
    assert Newest(entries, user, s, e);
  }

  /** A backward scan from entry `p` has looked at everything after `q`, and `c`
      is the last visible entry it met (`p + 1` if none). */
  ghost predicate Swept(es: seq<Entry>, s: SequenceNumber, p: nat, q: int, c: nat) {
    && -1 <= q < c <= p + 1 <= |es|
    && (forall j {:trigger Visible(es, s, j)} :: q < j < c ==> !Visible(es, s, j))
    && (forall j {:trigger Live(es, s, j)} :: c < j <= p ==> !Live(es, s, j))
    && (c <= p ==> Visible(es, s, c))
  }

  /** Looking at entry `q`: an invisible one changes nothing; a visible one of a
      smaller user key shows that a value at `c` is live; any other takes over. */
  lemma {:induction false} SweepStep(es: seq<Entry>, s: SequenceNumber, p: nat, q: nat, c: nat)
    requires Sorted(es) && Swept(es, s, p, q, c)
    ensures !Visible(es, s, q) ==> Swept(es, s, p, q - 1, c)
    ensures c <= p ==> Rank(es[q].key.user) <= Rank(es[c].key.user)
    ensures Visible(es, s, q) && c <= p && es[c].key.kind == Value && es[q].key.user != es[c].key.user ==>
      Live(es, s, c)
    ensures Visible(es, s, q) && (c <= p && es[c].key.kind == Value ==> es[q].key.user == es[c].key.user) ==>
      Swept(es, s, p, q - 1, q)
  {
    UsersAscend(es, q);
    assert Visible(es, s, q) && c <= p && es[q].key.user == es[c].key.user ==> !Live(es, s, c);
  }

  lemma {:induction false} SweepEnd(es: seq<Entry>, s: SequenceNumber, p: nat, c: nat)
    requires Swept(es, s, p, -1, c)
    ensures c <= p && es[c].key.kind == Value ==> Live(es, s, c)
  {
  }

  class DbIter {
    const iter: EntryIterator
    const snapshot: SequenceNumber
    var savedKey: Bytes
    var savedValue: Bytes
    var forward: bool
    var valid: bool
    /** Index of the entry that yields the current item. */
    ghost var current: nat

    ghost predicate Valid()
      reads this, iter
    {
      && iter.Valid()
      && Sorted(iter.items)
      && (valid ==>
        && current < |iter.items|
        && Live(iter.items, snapshot, current)
        && if forward then iter.pos == current else AtReverse())
    }

    /** Moving backwards, the inner iterator has left the versions of the current
        key behind, and skipped nothing visible on the way. */
    ghost predicate AtReverse()
      requires current < |iter.items|
      reads this, iter
    {
      var es := iter.items;
      && savedKey == es[current].key.user
      && savedValue == es[current].value
      && (iter.pos < |es| ==> iter.pos < current && Rank(es[iter.pos].key.user) < Rank(savedKey))
      && forall j :: (if iter.pos < |es| then iter.pos + 1 else 0) <= j < current ==> !Visible(es, snapshot, j)
    }

    ghost function State(): (c: Cursor<Pair>)
      requires Valid()
      reads this, iter
      ensures c.Valid() <==> valid
      ensures valid ==> c.Item() == Pair(Key(), Value())
    {
      var es := iter.items;
      var view := View(es, snapshot, |es|);
      if valid then ViewAt(es, snapshot, current); Cursor(view, |View(es, snapshot, current)|)
      else Cursor(view, |view|)
    }

    constructor (iter: EntryIterator, snapshot: SequenceNumber)
      requires iter.Valid() && Sorted(iter.items)
      ensures Valid() && !valid && this.iter == iter && this.snapshot == snapshot
      ensures State().pos == |State().items|
    {
      this.iter, this.snapshot := iter, snapshot;
      savedKey, savedValue, forward, valid := [], [], true, false;
    }

    function Key(): Bytes
      requires Valid() && valid
      reads this, iter
    {
      if forward then iter.Key().user else savedKey
    }

    function Value(): Bytes
      requires Valid() && valid
      reads this, iter
    {
      if forward then iter.items[iter.pos].value else savedValue
    }

    method FindNextUserEntry(skipping0: bool, skip0: Bytes)
      requires iter.Valid() && Sorted(iter.items) && iter.HasCurrent() && forward
      requires skipping0 ==> forall j :: iter.pos <= j < |iter.items| && Visible(iter.items, snapshot, j) ==>
        Rank(skip0) <= Rank(iter.items[j].key.user)
      requires forall j :: 0 <= j < iter.pos && Visible(iter.items, snapshot, j) ==>
        || Rank(iter.items[j].key.user) < Rank(iter.Key().user)
        || (skipping0 && Rank(iter.items[j].key.user) <= Rank(skip0))
      modifies this, iter
      ensures Valid() && forward
      ensures valid ==> old(iter.pos) <= current
      ensures valid && skipping0 ==> Rank(skip0) < Rank(iter.items[current].key.user)
      ensures forall j :: old(iter.pos) <= j < (if valid then current else |iter.items|) && Live(iter.items, snapshot, j) ==>
        skipping0 && Rank(iter.items[j].key.user) <= Rank(skip0)
    {
      hide Rank, Sorted, CompareBytes, Live;
      ghost var es, p := iter.items, iter.pos;
      var skipping, skip := skipping0, skip0;
      while true
        invariant iter.Valid() && iter.HasCurrent() && p <= iter.pos && forward
        invariant forall j :: p <= j < iter.pos && Visible(es, snapshot, j) ==>
          skipping && Rank(es[j].key.user) <= Rank(skip)
        invariant skipping0 ==> skipping && Rank(skip0) <= Rank(skip)
        invariant skipping && !(skipping0 && skip == skip0) ==>
          exists j :: p <= j < iter.pos && Visible(es, snapshot, j) && es[j].key.user == skip
        invariant forall j :: p <= j < iter.pos && Live(es, snapshot, j) ==>
          skipping0 && Rank(es[j].key.user) <= Rank(skip0)
        decreases |es| - iter.pos
      {
        var key := iter.Key();
        UsersAscend(es, iter.pos);
        Liveness(es, snapshot, iter.pos);
        if key.seqno <= snapshot {
          match key.kind
          case Deletion =>
            skip, skipping := key.user, true;
          case Value =>
            if skipping && CompareBytes(key.user, skip) <= 0 {
              // Hidden by a newer version or a deletion.
            } else {
              valid, savedKey := true, [];
              current := iter.pos;
              return;
            }
        }
        iter.Next();
        if !iter.HasCurrent() {
          break;
        }
      }
      savedKey, valid := [], false;
    }

    method Next()
      requires Valid() && valid
      modifies this, iter
      ensures Valid() && State() == old(State()).Next()
    {
      ghost var es, c := iter.items, current;
      UsersAscend(es, c);
      if !forward {
        forward := true;
        // The inner iterator is just before the entries of the current key.
        if !iter.HasCurrent() {
          iter.SeekToFirst();
        } else {
          iter.Next();
        }
        if !iter.HasCurrent() {
          // The source marks itself invalid here, but the current entry is still ahead.
          assert false;
        }
      } else {
        savedKey := iter.Key().user;
      }
      FindNextUserEntry(true, savedKey);
      OneLiveBetween(es, snapshot, c, if valid then current else |es|);
    }

    method Seek(target: Bytes)
      requires Valid()
      modifies this, iter
      ensures Valid() && State().items == old(State().items)
      ensures forall j :: 0 <= j < State().pos ==> Rank(State().items[j].key) < Rank(target)
      ensures State().Valid() ==> Rank(target) <= Rank(State().Item().key)
    {
      hide Rank;
      forward, savedValue, savedKey := true, [], [];
      iter.Seek(SeekKey(target, snapshot));
      if iter.HasCurrent() {
        ghost var p := iter.pos;
        UsersAscend(iter.items, p);
        FindNextUserEntry(false, savedKey);
      } else {
        valid := false;
      }
      ghost var n := if valid then current else |iter.items|;
      ViewBelow(iter.items, snapshot, n, target);
      ViewPrefix(iter.items, snapshot, n, |iter.items|);
    }

    method SeekToFirst()
      requires Valid()
      modifies this, iter
      ensures Valid() && State() == old(State()).First()
    {
      forward, savedValue := true, [];
      iter.SeekToFirst();
      if iter.HasCurrent() {
        FindNextUserEntry(false, savedKey);
      } else {
        valid := false;
      }
      ViewSkip(iter.items, snapshot, 0, if valid then current else |iter.items|);
    }

    method FindPrevUserEntry()
      requires iter.Valid() && Sorted(iter.items) && !forward
      modifies this, iter
      ensures Valid()
      ensures valid ==> !forward && old(iter.HasCurrent()) && current <= old(iter.pos)
      ensures old(iter.HasCurrent()) ==>
        forall j :: (if valid then current + 1 else 0) <= j <= old(iter.pos) ==> !Live(iter.items, snapshot, j)
    {
      hide Rank, CompareBytes;
      ghost var es, p := iter.items, iter.pos;
      var kind := Deletion;
      ghost var c: nat := p + 1;
      if iter.HasCurrent() {
        while true
          invariant iter.Valid() && iter.HasCurrent() && !forward
          invariant Swept(es, snapshot, p, iter.pos, c)
          invariant c <= p ==> es[c].key.kind == kind
          invariant kind.Value? ==> c <= p && savedKey == es[c].key.user && savedValue == es[c].value
          decreases iter.pos
        {
          var key := iter.Key();
          SweepStep(es, snapshot, p, iter.pos, c);
          if key.seqno <= snapshot {
            if kind.Value? && CompareBytes(key.user, savedKey) < 0 {
              break;
            }
            kind := key.kind;
            if kind.Deletion? {
              savedKey, savedValue := [], [];
            } else {
              savedKey, savedValue := key.user, iter.items[iter.pos].value;
            }
            c := iter.pos;
          }
          iter.Prev();
          if !iter.HasCurrent() {
            SweepEnd(es, snapshot, p, c);
            break;
          }
        }
      }
      if kind.Deletion? {
        valid, savedKey, savedValue, forward := false, [], [], true;
      } else {
        valid := true;
        current := c;
      }
    }

    method Prev()
      requires Valid() && valid
      modifies this, iter
      ensures Valid() && State() == old(State()).Prev()
    {
      ghost var es, c := iter.items, current;
      UsersAscend(es, c);
      if forward {
        savedKey := iter.Key().user;
        while true
          invariant iter.Valid() && iter.HasCurrent() && iter.pos <= c && forward
          invariant savedKey == es[c].key.user
          invariant forall j :: iter.pos <= j < c ==> es[j].key.user == savedKey
          decreases iter.pos
        {
          iter.Prev();
          if !iter.HasCurrent() {
            valid, savedKey, savedValue := false, [], [];
            ViewSkip(es, snapshot, 0, c);
            return;
          }
          if CompareBytes(iter.Key().user, savedKey) < 0 {
            break;
          }
        }
        forward := false;
      }
      FindPrevUserEntry();
      if valid {
        OneLiveBetween(es, snapshot, current, c);
      } else {
        ViewSkip(es, snapshot, 0, c);
      }
    }

    method SeekToLast()
      requires Valid()
      modifies this, iter
      ensures Valid() && State() == old(State()).Last()
    {
      forward, savedValue := false, [];
      iter.SeekToLast();
      FindPrevUserEntry();
      if valid {
        OneLiveBetween(iter.items, snapshot, current, |iter.items|);
      } else {
        ViewSkip(iter.items, snapshot, 0, |iter.items|);
      }
    }
  }
}
