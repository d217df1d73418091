/** The plain cursor every iterator of the storage engine is meant to be. */
module Cursors {
  import opened InternalKeys

  /** A position in a sequence; `pos == |items|` is the one invalid position. */
  datatype Cursor<T> = Cursor(items: seq<T>, pos: nat) {
    predicate Valid() { pos < |items| }

    function Item(): T
      requires Valid()
    {
      items[pos]
    }

    function Moved(p: nat): Cursor<T> { Cursor(items, p) }

    function Next(): Cursor<T>
      requires Valid()
    {
      Moved(pos + 1)
    }

    /** Stepping back from the first item leaves the cursor invalid. */
    function Prev(): Cursor<T>
      requires Valid()
    {
      Moved(if pos == 0 then |items| else pos - 1)
    }

    function First(): Cursor<T> { Moved(0) }

    function Last(): Cursor<T> { Moved(if items == [] then 0 else |items| - 1) }
  }

  /** Where a seek to `k` lands: the first entry at or after `k`. */
  function LowerBound(es: seq<Entry>, k: IKey): (r: nat)
    ensures r <= |es|
    ensures forall j :: 0 <= j < r ==> Before(es[j].key, k)
    ensures r < |es| ==> !Before(es[r].key, k)
  {
    if es == [] || Compare(es[0].key, k) >= 0 then 0 else 1 + LowerBound(es[1..], k)
  }

  lemma {:induction false} LowerBoundUnique(es: seq<Entry>, k: IKey, r: nat)
    requires r <= |es|
    requires forall j :: 0 <= j < r ==> Before(es[j].key, k)
    requires r < |es| ==> !Before(es[r].key, k)
    ensures LowerBound(es, k) == r
  {
  }

  /** An iterator over entries held in order, such as one over a memtable, a
      block or a file list; it stands for the children of the compound iterators. */
  class EntryIterator {
    const items: seq<Entry>
    var pos: nat

    ghost predicate Valid()
      reads this
    {
      pos <= |items|
    }

    function State(): Cursor<Entry>
      reads this
    {
      Cursor(items, pos)
    }

    constructor (items: seq<Entry>)
      ensures Valid() && this.items == items && pos == |items|
    {
      this.items, pos := items, |items|;
    }

    predicate HasCurrent()
      reads this
    {
      pos < |items|
    }

    function Key(): IKey
      requires HasCurrent()
      reads this
    {
      items[pos].key
    }

    method Next()
      requires Valid() && HasCurrent()
      modifies this
      ensures Valid() && State() == old(State()).Next()
    {
      pos := pos + 1;
    }

    method Prev()
      requires Valid() && HasCurrent()
      modifies this
      ensures Valid() && State() == old(State()).Prev()
    {
      pos := if pos == 0 then |items| else pos - 1;
    }

    method Seek(target: IKey)
      requires Valid()
      modifies this
      ensures Valid() && State() == old(State()).Moved(LowerBound(items, target))
    {
      pos := LowerBound(items, target);
    }

    method SeekToFirst()
      modifies this
      ensures Valid() && State() == old(State()).First()
    {
      pos := 0;
    }

    method SeekToLast()
      modifies this
      ensures Valid() && State() == old(State()).Last()
    {
      pos := if items == [] then 0 else |items| - 1;
    }
  }
}
