/** Merging sorted children into one cursor. */
module Merging {
  import opened InternalKeys
  import opened Cursors

  ghost predicate SameKey(lists: seq<seq<Entry>>, c: nat, i: nat, d: nat, j: nat) {
    && c < |lists| && d < |lists| && i < |lists[c]| && j < |lists[d]|
    && lists[c][i].key == lists[d][j].key
  }

  /** No key occurs twice, neither in one list nor in two. */
  ghost predicate DistinctKeys(lists: seq<seq<Entry>>) {
    forall c: nat, i: nat, d: nat, j: nat :: SameKey(lists, c, i, d, j) ==> c == d && i == j
  }

  /** Entry `e` is one of the entries of the lists. */
  ghost predicate Listed(lists: seq<seq<Entry>>, e: Entry) {
    exists c :: 0 <= c < |lists| && e in lists[c]
  }

  /** `merged` is the sorted union of the lists. */
  ghost predicate IsMerge(lists: seq<seq<Entry>>, merged: seq<Entry>) {
    && Sorted(merged)
    && (forall e :: e in merged <==> Listed(lists, e))
    && (forall c :: 0 <= c < |lists| ==> Sorted(lists[c]))
    && DistinctKeys(lists)
  }

  /** The entry at `i` in list `c` is merged entry `j`. */
  ghost predicate IsAt(lists: seq<seq<Entry>>, merged: seq<Entry>, c: nat, i: nat, j: nat) {
    c < |lists| && i < |lists[c]| && j < |merged| && lists[c][i] == merged[j]
  }

  /** Cutting the lists before positions `ps` takes exactly the first `a` merged entries. */
  ghost predicate Divides(lists: seq<seq<Entry>>, merged: seq<Entry>, a: nat, ps: seq<nat>) {
    && |ps| == |lists|
    && a <= |merged|
    && (forall c :: 0 <= c < |lists| ==> ps[c] <= |lists[c]|)
    && forall c: nat, i: nat, j: nat :: IsAt(lists, merged, c, i, j) ==> (j < a <==> i < ps[c])
  }

  lemma {:induction false} Unshared(lists: seq<seq<Entry>>, c: nat, i: nat, d: nat, j: nat)
    requires DistinctKeys(lists) && c != d && c < |lists| && d < |lists| && i < |lists[c]| && j < |lists[d]|
    ensures lists[c][i].key != lists[d][j].key
  {
    assert !SameKey(lists, c, i, d, j);
  }

  lemma {:induction false} DividesBounds(lists: seq<seq<Entry>>, merged: seq<Entry>, a: nat, ps: seq<nat>)
    requires Divides(lists, merged, a, ps)
    ensures |ps| == |lists| && a <= |merged| && forall c :: 0 <= c < |lists| ==> ps[c] <= |lists[c]|
  {
  }

  lemma {:induction false} Home(lists: seq<seq<Entry>>, merged: seq<Entry>, j: nat) returns (c: nat, i: nat)
    requires IsMerge(lists, merged) && j < |merged|
    ensures IsAt(lists, merged, c, i, j)
  {
    assert Listed(lists, merged[j]);
    c :| c < |lists| && merged[j] in lists[c];
    i :| i < |lists[c]| && lists[c][i] == merged[j];
  }

  lemma {:induction false} Place(lists: seq<seq<Entry>>, merged: seq<Entry>, c: nat, i: nat) returns (j: nat)
    requires IsMerge(lists, merged) && c < |lists| && i < |lists[c]|
    ensures IsAt(lists, merged, c, i, j)
  {
    assert Listed(lists, lists[c][i]);
    j :| j < |merged| && merged[j] == lists[c][i];
  }

  /** Moving one entry across the cut, in either direction. */
  lemma {:induction false} DividesStep(lists: seq<seq<Entry>>, merged: seq<Entry>, a: nat, ps: seq<nat>, c: nat)
    requires IsMerge(lists, merged) && a < |merged|
    requires |ps| == |lists| && c < |lists| && ps[c] < |lists[c]| && lists[c][ps[c]] == merged[a]
    ensures Divides(lists, merged, a, ps) <==> Divides(lists, merged, a + 1, ps[c := ps[c] + 1])
  {
    var qs := ps[c := ps[c] + 1];
    forall d: nat, i: nat, j: nat | IsAt(lists, merged, d, i, j)
      ensures j == a <==> d == c && i == ps[c]
    {
      assert j == a ==> SameKey(lists, c, ps[c], d, i);
      assert j < a ==> Before(merged[j].key, merged[a].key);
      assert a < j ==> Before(merged[a].key, merged[j].key);
    }
  }

  lemma {:induction false} KeyBound(es: seq<Entry>, i: nat)
    requires Sorted(es) && i < |es|
    ensures LowerBound(es, es[i].key) == i
  {
    assert forall j :: 0 <= j < i ==> Before(es[j].key, es[i].key);
    LowerBoundUnique(es, es[i].key, i);
  }

  lemma {:induction false} DividesAtEnds(lists: seq<seq<Entry>>, merged: seq<Entry>, ps: seq<nat>)
    requires |ps| == |lists|
    ensures (forall c :: 0 <= c < |lists| ==> ps[c] == 0) ==> Divides(lists, merged, 0, ps)
    ensures (forall c :: 0 <= c < |lists| ==> ps[c] == |lists[c]|) ==> Divides(lists, merged, |merged|, ps)
  {
  }

  /** Seeking every child to `k` cuts the merged sequence at `k`. */
  lemma {:induction false} DividesAtKey(lists: seq<seq<Entry>>, merged: seq<Entry>, k: IKey, ps: seq<nat>)
    requires IsMerge(lists, merged) && |ps| == |lists|
    requires forall c :: 0 <= c < |lists| ==> ps[c] == LowerBound(lists[c], k)
    ensures Divides(lists, merged, LowerBound(merged, k), ps)
  {
    var a := LowerBound(merged, k);
    forall c: nat, i: nat, j: nat | IsAt(lists, merged, c, i, j)
      ensures j < a <==> i < ps[c]
    {
      assert a < j ==> Before(merged[a].key, merged[j].key);
      assert ps[c] < i ==> Before(lists[c][ps[c]].key, lists[c][i].key);
    }
  }

  /** The smallest entry after the cut is the next merged one. */
  lemma {:induction false} SmallestIsNext(lists: seq<seq<Entry>>, merged: seq<Entry>, a: nat, ps: seq<nat>, cur: int)
    requires IsMerge(lists, merged) && Divides(lists, merged, a, ps)
    requires -1 <= cur < |lists|
    requires cur == -1 ==> forall c :: 0 <= c < |lists| ==> ps[c] == |lists[c]|
    requires cur >= 0 ==> ps[cur] < |lists[cur]|
    requires cur >= 0 ==> forall c :: 0 <= c < |lists| && ps[c] < |lists[c]| ==>
      !Before(lists[c][ps[c]].key, lists[cur][ps[cur]].key)
    ensures cur == -1 <==> a == |merged|
    ensures cur >= 0 ==> lists[cur][ps[cur]] == merged[a]
  {
    if cur >= 0 {
      var j := Place(lists, merged, cur, ps[cur]);
      assert a <= j;
      var c, i := Home(lists, merged, a);
      assert ps[c] < i ==> Before(lists[c][ps[c]].key, lists[c][i].key);
      assert a < j ==> Before(merged[a].key, merged[j].key);
    } else if a < |merged| {
      var c, i := Home(lists, merged, a);
    }
  }

  /** The largest entry before the cut is the previous merged one. */
  lemma {:induction false} LargestIsPrevious(lists: seq<seq<Entry>>, merged: seq<Entry>, a: nat, ps: seq<nat>, cur: int)
    requires IsMerge(lists, merged) && Divides(lists, merged, a, ps)
    requires -1 <= cur < |lists|
    requires cur == -1 ==> forall c :: 0 <= c < |lists| ==> ps[c] == 0
    requires cur >= 0 ==> ps[cur] > 0
    requires cur >= 0 ==> forall c :: 0 <= c < |lists| && ps[c] > 0 ==>
      !Before(lists[cur][ps[cur] - 1].key, lists[c][ps[c] - 1].key)
    ensures cur == -1 <==> a == 0
    ensures cur >= 0 ==> lists[cur][ps[cur] - 1] == merged[a - 1]
  {
    if cur >= 0 {
      var j := Place(lists, merged, cur, ps[cur] - 1);
      assert j < a;
      var c, i := Home(lists, merged, a - 1);
      assert i < ps[c] - 1 ==> Before(lists[c][i].key, lists[c][ps[c] - 1].key);
      assert j < a - 1 ==> Before(merged[j].key, merged[a - 1].key);
    } else if a > 0 {
      var c, i := Home(lists, merged, a - 1);
    }
  }

  /** Any sorted lists with distinct keys have a sorted union. */
  lemma {:induction false} MergeExists(lists: seq<seq<Entry>>) returns (merged: seq<Entry>)
    requires DistinctKeys(lists)
    requires forall c :: 0 <= c < |lists| ==> Sorted(lists[c])
    ensures IsMerge(lists, merged)
  {
    merged := [];
    for c := 0 to |lists|
      invariant Sorted(merged)
      invariant forall e :: e in merged <==> Listed(lists[..c], e)
    {
      ghost var before := merged;
      for i := 0 to |lists[c]|
        invariant Sorted(merged)
        invariant forall e :: e in merged <==> e in before || e in lists[c][..i]
      {
        var e := lists[c][i];
        forall d | d in merged
          ensures d.key != e.key
        {
          if d in before {
            var b :| 0 <= b < c && d in lists[..c][b];
            var j :| 0 <= j < |lists[b]| && lists[b][j] == d;
            assert SameKey(lists, b, j, c, i) ==> b == c;
          } else {
            var j :| 0 <= j < i && lists[c][j] == d;
            assert SameKey(lists, c, j, c, i) ==> j == i;
          }
        }
        merged := InsertSorted(merged, e);
        assert lists[c][..i + 1] == lists[c][..i] + [e];
      }
      assert lists[c][..|lists[c]|] == lists[c];
      assert lists[..c + 1] == lists[..c] + [lists[c]];
      forall e
        ensures e in merged <==> Listed(lists[..c + 1], e)
      {
        if e in before {
          var b :| 0 <= b < c && e in lists[..c][b];
          assert e in lists[..c + 1][b];
        }
        if e in lists[c] {
          assert e in lists[..c + 1][c];
        }
        if Listed(lists[..c + 1], e) {
          var b :| 0 <= b < c + 1 && e in lists[..c + 1][b];
          assert b < c ==> e in lists[..c][b];
        }
      }
    }
    assert lists[..|lists|] == lists;
  }

  function InsertSorted(es: seq<Entry>, e: Entry): (r: seq<Entry>)
    requires Sorted(es) && forall d :: d in es ==> d.key != e.key
    ensures Sorted(r)
    ensures forall d :: d in r <==> d in es || d == e
  {
    var p := LowerBound(es, e.key);
    assert es == es[..p] + es[p..];
    assert forall i :: p <= i < |es| ==> Before(e.key, es[i].key) by {
      forall i | p <= i < |es|
        ensures Before(e.key, es[i].key)
      {
        assert p < i ==> Before(es[p].key, es[i].key);
        Trichotomy(es[i].key, e.key);
      }
    }
    SpliceSorted(es, e, p);
    es[..p] + [e] + es[p..]
  }

  lemma {:induction false} SpliceSorted(es: seq<Entry>, e: Entry, p: nat)
    requires Sorted(es) && p <= |es|
    requires forall i :: 0 <= i < p ==> Before(es[i].key, e.key)
    requires forall i :: p <= i < |es| ==> Before(e.key, es[i].key)
    ensures Sorted(es[..p] + [e] + es[p..])
  {
    var r := es[..p] + [e] + es[p..];
    forall i, j | 0 <= i < j < |r|
      ensures Before(r[i].key, r[j].key)
    {
      if i < p {
        assert p < j ==> r[j] == es[j - 1] && Before(es[i].key, es[j - 1].key);
        assert j < p ==> r[j] == es[j] && Before(es[i].key, es[j].key);
      } else if i > p {
        assert r[i] == es[i - 1] && r[j] == es[j - 1] && Before(es[i - 1].key, es[j - 1].key);
      }
    }
  }

  class MergingIterator {
    const children: seq<EntryIterator>
    /** Index of the child holding the current entry, or -1. */
    var current: int
    var forward: bool
    ghost const merged: seq<Entry>
    ghost var at: nat

    ghost predicate ChildrenOk()
      reads this, children
    {
      && (forall c, d :: 0 <= c < d < |children| ==> children[c] != children[d])
      && (forall c :: 0 <= c < |children| ==> children[c].Valid())
      && IsMerge(Lists(), merged)
    }

    ghost function Lists(): seq<seq<Entry>> {
      seq(|children|, c requires 0 <= c < |children| => children[c].items)
    }

    ghost function Positions(): seq<nat>
      reads children
    {
      seq(|children|, c requires 0 <= c < |children| reads children => children[c].pos)
    }

    /** Where the children cut their lists: moving forward each child stands on its
        first entry from the current one on; moving backward all but the current
        child stand on their last entry before it. */
    ghost function Cuts(): seq<nat>
      reads this, children
    {
      seq(|children|, c requires 0 <= c < |children| reads this, children =>
        if forward || c == current then children[c].pos
        else if children[c].HasCurrent() then children[c].pos + 1
        else 0)
    }

    ghost predicate Valid()
      reads this, children
    {
      && ChildrenOk()
      && at <= |merged|
      && -1 <= current < |children|
      && (current == -1 <==> at == |merged|)
      && (current >= 0 ==>
        && children[current].HasCurrent()
        && children[current].items[children[current].pos] == merged[at]
        && Divides(Lists(), merged, at, Cuts()))
    }

    ghost function State(): Cursor<Entry>
      reads this
    {
      Cursor(merged, at)
    }

    constructor (children: seq<EntryIterator>)
      requires forall c, d :: 0 <= c < d < |children| ==> children[c] != children[d]
      requires forall c :: 0 <= c < |children| ==> children[c].Valid() && Sorted(children[c].items)
      requires DistinctKeys(seq(|children|, c requires 0 <= c < |children| => children[c].items))
      ensures Valid() && this.children == children && current == -1
      ensures IsMerge(Lists(), merged)
    {
      this.children, current, forward := children, -1, true;
      ghost var m := MergeExists(seq(|children|, c requires 0 <= c < |children| => children[c].items));
      merged, at := m, |m|;
    }

    predicate HasCurrent()
      reads this
    {
      current != -1
    }

    function Item(): Entry
      requires 0 <= current < |children| && children[current].HasCurrent()
      reads this, children
    {
      children[current].items[children[current].pos]
    }

    method FindSmallest()
      requires forall c :: 0 <= c < |children| ==> children[c].Valid()
      modifies this`current
      ensures -1 <= current < |children|
      ensures current == -1 ==> forall c :: 0 <= c < |children| ==> !children[c].HasCurrent()
      ensures current >= 0 ==> children[current].HasCurrent()
      ensures current >= 0 ==> forall c :: 0 <= c < |children| && children[c].HasCurrent() ==>
        !Before(children[c].Key(), children[current].Key())
    {
      var smallest := -1;
      for i := 0 to |children|
        invariant -1 <= smallest < i
        invariant smallest == -1 ==> forall c :: 0 <= c < i ==> !children[c].HasCurrent()
        invariant smallest >= 0 ==> children[smallest].HasCurrent()
        invariant smallest >= 0 ==> forall c :: 0 <= c < i && children[c].HasCurrent() ==>
          !Before(children[c].Key(), children[smallest].Key())
      {
        var child := children[i];
        if child.HasCurrent() {
          if smallest == -1 {
            smallest := i;
          } else if Compare(child.Key(), children[smallest].Key()) < 0 {
            smallest := i;
          }
        }
      }
      current := smallest;
    }

    method FindLargest()
      requires forall c :: 0 <= c < |children| ==> children[c].Valid()
      modifies this`current
      ensures -1 <= current < |children|
      ensures current == -1 ==> forall c :: 0 <= c < |children| ==> !children[c].HasCurrent()
      ensures current >= 0 ==> children[current].HasCurrent()
      ensures current >= 0 ==> forall c :: 0 <= c < |children| && children[c].HasCurrent() ==>
        !Before(children[current].Key(), children[c].Key())
    {
      var largest := -1;
      for i := |children| downto 0
        invariant largest == -1 || i <= largest < |children|
        invariant largest == -1 ==> forall c :: i <= c < |children| ==> !children[c].HasCurrent()
        invariant largest >= 0 ==> children[largest].HasCurrent()
        invariant largest >= 0 ==> forall c :: i <= c < |children| && children[c].HasCurrent() ==>
          !Before(children[largest].Key(), children[c].Key())
      {
        var child := children[i];
        if child.HasCurrent() {
          if largest == -1 {
            largest := i;
          } else if Compare(child.Key(), children[largest].Key()) > 0 {
            largest := i;
          }
        }
      }
      current := largest;
    }

    /** With every child at the cut and `current` the smallest of them, the iterator
        stands on the merged entry after the cut. */
    ghost method Settle(a: nat)
      requires ChildrenOk() && forward && Divides(Lists(), merged, a, Positions())
      requires -1 <= current < |children|
      requires current == -1 ==> forall c :: 0 <= c < |children| ==> !children[c].HasCurrent()
      requires current >= 0 ==> children[current].HasCurrent()
      requires current >= 0 ==> forall c :: 0 <= c < |children| && children[c].HasCurrent() ==>
        !Before(children[c].Key(), children[current].Key())
      modifies this`at
      ensures Valid() && at == a
    {
      at := a;
      SmallestIsNext(Lists(), merged, a, Positions(), current);
      assert Cuts() == Positions();
    }

    method SeekToFirst()
      requires Valid()
      modifies this, children
      ensures Valid() && State() == old(State()).First()
    {
      hide IsMerge, Divides, LowerBound, Before;
      for i := 0 to |children|
        invariant ChildrenOk()
        invariant forall c :: 0 <= c < i ==> children[c].pos == 0
      {
        children[i].SeekToFirst();
      }
      FindSmallest();
      forward := true;
      DividesAtEnds(Lists(), merged, Positions());
      Settle(0);
    }

    method SeekToLast()
      requires Valid()
      modifies this, children
      ensures Valid() && State() == old(State()).Last()
    {
      hide IsMerge, Divides, LowerBound, Before;
      for i := 0 to |children|
        invariant ChildrenOk()
        invariant forall c :: 0 <= c < i ==>
          children[c].pos == if children[c].items == [] then 0 else |children[c].items| - 1
      {
        children[i].SeekToLast();
      }
      FindLargest();
      forward := false;
      ghost var ends := seq(|children|, c requires 0 <= c < |children| => |children[c].items|);
      DividesAtEnds(Lists(), merged, ends);
      StepBack(|merged|, ends);
    }

    /** With every child just before the cut `ps` and `current` the largest of them,
        the iterator stands on the merged entry before the cut. */
    ghost method StepBack(a: nat, ps: seq<nat>)
      requires ChildrenOk() && !forward && Divides(Lists(), merged, a, ps)
      requires forall c :: 0 <= c < |children| ==>
        children[c].pos == if ps[c] == 0 then |children[c].items| else ps[c] - 1
      requires -1 <= current < |children|
      requires current == -1 ==> forall c :: 0 <= c < |children| ==> !children[c].HasCurrent()
      requires current >= 0 ==> children[current].HasCurrent()
      requires current >= 0 ==> forall c :: 0 <= c < |children| && children[c].HasCurrent() ==>
        !Before(children[current].Key(), children[c].Key())
      modifies this`at
      ensures Valid() && at == if a == 0 then |merged| else a - 1
    {
      hide IsMerge, Divides, Before;
      DividesBounds(Lists(), merged, a, ps);
      at := if a == 0 then |merged| else a - 1;
      LargestIsPrevious(Lists(), merged, a, ps, current);
      if current >= 0 {
        DividesStep(Lists(), merged, at, Cuts(), current);
        assert Cuts()[current := Cuts()[current] + 1] == ps;
      }
    }

    method Seek(target: IKey)
      requires Valid()
      modifies this, children
      ensures Valid() && State() == old(State()).Moved(LowerBound(merged, target))
    {
      hide IsMerge, Divides, LowerBound, Before;
      for i := 0 to |children|
        invariant ChildrenOk()
        invariant forall c :: 0 <= c < i ==> children[c].pos == LowerBound(children[c].items, target)
      {
        children[i].Seek(target);
      }
      FindSmallest();
      forward := true;
      DividesAtKey(Lists(), merged, target, Positions());
      Settle(LowerBound(merged, target));
    }

    /** Ready to turn forward: every other child goes to its first entry after `key`. */
    method SeekOthers(key: IKey)
      requires ChildrenOk() && 0 <= current < |children| && children[current].HasCurrent()
      requires key == children[current].Key()
      modifies children
      ensures ChildrenOk() && children[current].pos == old(children[current].pos)
      ensures forall c :: 0 <= c < |children| && c != current ==> children[c].pos == LowerBound(children[c].items, key)
    {
      hide Divides, LowerBound;
      for i := 0 to |children|
        invariant ChildrenOk() && children[current].pos == old(children[current].pos)
        invariant forall c :: 0 <= c < i && c != current ==> children[c].pos == LowerBound(children[c].items, key)
      {
        var child := children[i];
        if i != current {
          child.Seek(key);
          if child.HasCurrent() {
            Unshared(Lists(), i, child.pos, current, children[current].pos);
            if Compare(key, child.Key()) == 0 {
              // The source would step past an equal key; the children share none.
              assert false;
            }
          }
        }
      }
    }

    /** Ready to turn back: every other child goes to its last entry before `key`. */
    method StepOthersBack(key: IKey)
      requires ChildrenOk() && 0 <= current < |children|
      modifies children
      ensures ChildrenOk() && children[current].pos == old(children[current].pos)
      ensures forall c :: 0 <= c < |children| && c != current ==>
        var p := LowerBound(children[c].items, key);
        children[c].pos == if p == 0 then |children[c].items| else p - 1
    {
      hide IsMerge, Divides, LowerBound, Before;
      for i := 0 to |children|
        invariant ChildrenOk() && children[current].pos == old(children[current].pos)
        invariant forall c :: 0 <= c < i && c != current ==>
          var p := LowerBound(children[c].items, key);
          children[c].pos == if p == 0 then |children[c].items| else p - 1
      {
        var child := children[i];
        if i != current {
          child.Seek(key);
          if child.HasCurrent() {
            child.Prev();
          } else {
            child.SeekToLast();
          }
        }
      }
    }

    /** Once the other children are sought to the current key, all are at the cut. */
    lemma {:induction false} AlignAt(key: IKey, cuts: seq<nat>)
      requires ChildrenOk() && 0 <= current < |children| && children[current].HasCurrent() && at < |merged|
      requires Item() == merged[at] && key == merged[at].key
      requires |cuts| == |children|
      requires forall c :: 0 <= c < |children| ==>
        cuts[c] == if c == current then children[c].pos else LowerBound(children[c].items, key)
      ensures Divides(Lists(), merged, at, cuts)
    {
      assert Lists()[current] == children[current].items;
      KeyBound(children[current].items, children[current].pos);
      KeyBound(merged, at);
      DividesAtKey(Lists(), merged, key, cuts);
    }

    method TurnForward()
      requires Valid() && HasCurrent() && !forward
      modifies this`forward, children
      ensures Valid() && forward
    {
      hide IsMerge, Divides, LowerBound, Before;
      var key := children[current].Key();
      SeekOthers(key);
      forward := true;
      AlignAt(key, Cuts());
    }

    method Next()
      requires Valid() && HasCurrent()
      modifies this, children
      ensures Valid() && State() == old(State()).Next()
    {
      hide IsMerge, Divides, LowerBound, Before;
      if !forward {
        TurnForward();
      }
      StepCurrent();
      FindSmallest();
      Settle(at + 1);
    }

    method StepCurrent()
      requires Valid() && HasCurrent() && forward
      modifies children
      ensures ChildrenOk() && at < |merged| && Divides(Lists(), merged, at + 1, Positions())
    {
      hide IsMerge, Divides;
      ghost var ps := Cuts();
      children[current].Next();
      DividesStep(Lists(), merged, at, ps, current);
      assert Positions() == ps[current := ps[current] + 1];
    }

    method Prev()
      requires Valid() && HasCurrent()
      modifies this, children
      ensures Valid() && State() == old(State()).Prev()
    {
      hide IsMerge, Divides, LowerBound, Before;
      ghost var cuts := Cuts();
      if forward {
        cuts := TurnBack();
      }
      DividesBounds(Lists(), merged, at, cuts);
      children[current].Prev();
      FindLargest();
      StepBack(at, cuts);
    }

    /** The other children go to their last entries before the cut the current child is at. */
    method TurnBack() returns (ghost cuts: seq<nat>)
      requires Valid() && HasCurrent() && forward
      modifies this`forward, children
      ensures ChildrenOk() && !forward && children[current].pos == old(children[current].pos)
      ensures Divides(Lists(), merged, at, cuts) && |cuts| == |children| && cuts[current] == children[current].pos
      ensures forall c :: 0 <= c < |children| && c != current ==>
        children[c].pos == if cuts[c] == 0 then |children[c].items| else cuts[c] - 1
    {
      hide IsMerge, Divides, LowerBound, Before;
      var key := children[current].Key();
      StepOthersBack(key);
      forward := false;
      cuts := seq(|children|, c requires 0 <= c < |children| reads this, children =>
        if c == current then children[c].pos else LowerBound(children[c].items, key));
      AlignAt(key, cuts);
    }
  }
}
