/** A table file made from the entries of a memtable, and lookups in it. */
module BuildTable {
  import opened ByteStrings
  import opened InternalKeys
  import opened Reads
  import opened Coding
  import opened Bloom
  import FilterBlock
  import Lookup
  import Table

  /** The table has been built over these entries, its filter over their user keys. */
  ghost predicate TableOf(t: Table.Table, entries: seq<Entry>) {
    (t.filter.Some? ==> Table.HashesUserKeys(t.policy)) && exists handles, bounds ::
        Table.Built(t, entries, handles, bounds)
  }

  /** The range of keys, the size of the blocks and the table; no file for no entries. */
  method Build(entries: seq<Entry>, encodedSize: seq<Entry> -> nat, blockSize: nat, userPolicy: Option<Policy>)
    returns (range: Option<(IKey, IKey)>, size: nat, t: Table.Table)
    requires Sorted(entries) && (userPolicy.Some? ==> userPolicy.value.Valid())
    ensures range == if entries == [] then None else Some((entries[0].key, entries[|entries| - 1].key))
    ensures entries != [] && size < TWO_64 && (t.filter.Some? ==> |t.filter.value| < TWO_32) ==> TableOf(t, entries)
  {
    hide Table.Built, Table.HashesUserKeys, Table.InternalPolicy, Sorted, Table.TableBuilder.Valid,
      FilterBlock.FilterBlockBuilder.Valid;
    if entries == [] {
      return None, 0, Table.Table([], map[], Policy(k => 0, 0, 1), None);
    }
    var filter: FilterBlock.FilterBlockBuilder? := null;
    if userPolicy.Some? {
      filter := NewFilter(userPolicy.value);
    }
    var builder := new Table.TableBuilder(encodedSize, blockSize, filter);
    var smallest, largest := entries[0].key, entries[0].key;
    for i := 0 to |entries|
      invariant builder.Valid() && builder.entries == entries[..i] && builder.filter == filter && fresh(builder)
      invariant filter != null ==> fresh(filter) && userPolicy.Some? && filter.policy == Table.InternalPolicy(userPolicy.value)
      invariant i > 0 ==> largest == entries[i - 1].key
      modifies builder, filter
    {
      NextAfter(entries, i);
      largest := entries[i].key;
      builder.Add(entries[i].key, entries[i].value);
    }
    assert entries[..|entries|] == entries;
    t := builder.Finish();
    range, size := Some((smallest, largest)), builder.offset;
    if userPolicy.Some? {
      Table.InternalHashes(userPolicy.value);
    }
  }

  method NewFilter(userPolicy: Policy) returns (filter: FilterBlock.FilterBlockBuilder)
    requires userPolicy.Valid()
    ensures fresh(filter) && filter.Valid() && filter.sets == [] && filter.pending == [] &&
      filter.policy == Table.InternalPolicy(userPolicy)
  {
    filter := new FilterBlock.FilterBlockBuilder(Table.InternalPolicy(userPolicy));
  }

  lemma {:induction false} NextAfter(entries: seq<Entry>, i: nat)
    requires Sorted(entries) && i < |entries|
    ensures i > 0 ==> Before(entries[..i][|entries[..i]| - 1].key, entries[i].key)
    ensures Entry(entries[i].key, entries[i].value) == entries[i] && entries[..i] + [entries[i]] == entries[..i + 1]
  {
    assert i > 0 ==> Before(entries[i - 1].key, entries[i].key);
  }

  /** Looking a key up in such a file is the probe that lookups in a version are made of. */
  method GetFromFile(t: Table.Table, user: Bytes, s: SequenceNumber, ghost entries: seq<Entry>)
    returns (r: Lookup.Found)
    requires TableOf(t, entries)
    ensures r == Lookup.Probe(entries, user, s) && Lookup.Answers(r, Contents(entries), user, s)
  {
    hide Table.Built, Table.HashesUserKeys, Lookup.Probe, Lookup.Answers;
    ghost var handles, bounds :| Table.Built(t, entries, handles, bounds);
    r := Table.Get(t, user, s, entries, handles, bounds);
  }
}
