/** Table files and the levels of a version. */
module Files {
  import opened ByteStrings
  import opened InternalKeys

  /** A table file: its number, its size, its key range and what it holds. */
  datatype File = File(number: nat, size: nat, smallest: IKey, largest: IKey, entries: seq<Entry>) {
    ghost predicate Ok() {
      && entries != []
      && Sorted(entries)
      && smallest == entries[0].key
      && largest == entries[|entries| - 1].key
    }

    /** The user key lies in the range of the file. */
    ghost predicate Spans(user: Bytes) {
      Rank(smallest.user) <= Rank(user) <= Rank(largest.user)
    }
  }

  ghost function EntriesOf(files: seq<File>): set<Entry> {
    set f, e | f in files && e in f.entries :: e
  }

  /** Files of a level below the first: in key order, ranges apart. */
  ghost predicate Disjoint(files: seq<File>) {
    && (forall f :: f in files ==> f.Ok())
    && forall i, j {:trigger Before(files[i].largest, files[j].smallest)} ::
      0 <= i < j < |files| ==> Before(files[i].largest, files[j].smallest)
  }

  type Levels = v: seq<seq<File>> | |v| == NUM_LEVELS
    witness seq(NUM_LEVELS, i => [])

  ghost predicate WellShaped(v: Levels) {
    && (forall f :: f in v[0] ==> f.Ok())
    && forall l :: 1 <= l < NUM_LEVELS ==> Disjoint(v[l])
  }

  /** Every entry of a file lies in its range. */
  lemma {:induction false} InRange(f: File, e: Entry)
    requires f.Ok() && e in f.entries
    ensures f.Spans(e.key.user)
    ensures !Before(e.key, f.smallest) && !Before(f.largest, e.key)
  {
    var i :| 0 <= i < |f.entries| && f.entries[i] == e;
    assert 0 < i ==> Before(f.entries[0].key, f.entries[i].key);
    assert i < |f.entries| - 1 ==> Before(f.entries[i].key, f.entries[|f.entries| - 1].key);
  }

  lemma {:induction false} RangeOrdered(f: File)
    requires f.Ok()
    ensures !Before(f.largest, f.smallest)
  {
    InRange(f, f.entries[0]);
  }

  /** Files of a level are listed by smallest key, ties broken by number. */
  predicate BySmallestKey(f: File, g: File) {
    var r := Compare(f.smallest, g.smallest);
    r < 0 || (r == 0 && f.number < g.number)
  }

  function AddFile(files: seq<File>, f: File): seq<File> {
    if files == [] || BySmallestKey(f, files[0]) then [f] + files
    else [files[0]] + AddFile(files[1..], f)
  }

  lemma {:induction false} AddFileMember(files: seq<File>, f: File)
    ensures forall g :: g in AddFile(files, f) <==> g == f || g in files
  {
    if files != [] && !BySmallestKey(f, files[0]) {
      AddFileMember(files[1..], f);
      assert files == [files[0]] + files[1..];
    }
  }

  /** The two ranges share no internal key. */
  ghost predicate Apart(f: File, g: File) {
    Before(f.largest, g.smallest) || Before(g.largest, f.smallest)
  }

  /** A file in front of a sorted list. */
  lemma {:induction false} InFront(f: File, files: seq<File>)
    requires Disjoint(files) && f.Ok() && forall g :: g in files ==> Before(f.largest, g.smallest)
    ensures Disjoint([f] + files)
  {
    hide Rank, Before, File.Ok;
    var r := [f] + files;
    forall i, j | 0 <= i < j < |r|
      ensures Before(r[i].largest, r[j].smallest)
    {
      assert r[j] == files[j - 1] && files[j - 1] in files;
      if i > 0 {
        assert Before(files[i - 1].largest, files[j - 1].smallest);
      }
    }
  }

  lemma {:induction false} RestDisjoint(files: seq<File>)
    requires Disjoint(files) && files != []
    ensures Disjoint(files[1..]) && files[0].Ok() &&
      forall g :: g in files[1..] ==> g.Ok() && Before(files[0].largest, g.smallest)
  {
    hide Rank, Before, File.Ok;
    var rest := files[1..];
    forall i, j | 0 <= i < j < |rest|
      ensures Before(rest[i].largest, rest[j].smallest)
    {
      assert Before(files[i + 1].largest, files[j + 1].smallest);
    }
    forall g | g in rest
      ensures g in files && Before(files[0].largest, g.smallest)
    {
      var k :| 1 <= k < |files| && files[k] == g;
      assert Before(files[0].largest, files[k].smallest);
    }
  }

  lemma {:induction false} AddFileDisjoint(files: seq<File>, f: File)
    requires Disjoint(files) && f.Ok()
    requires forall g :: g in files ==> Apart(f, g)
    ensures Disjoint(AddFile(files, f))
  {
    hide Rank;
    if files != [] {
      var g, rest := files[0], files[1..];
      RestDisjoint(files);
      RangeOrdered(f);
      RangeOrdered(g);
      assert files == [g] + rest && Apart(f, g);
      if BySmallestKey(f, g) {
        forall h | h in files
          ensures Before(f.largest, h.smallest)
        {
          RangeOrdered(h);
          assert Apart(f, h);
        }
        InFront(f, files);
      } else {
        AddFileDisjoint(rest, f);
        AddFileMember(rest, f);
        InFront(g, AddFile(rest, f));
      }
    }
  }
}
