/** A whole compaction, from its input files to the installed version. */
module CompactionEffect {
  import opened ByteStrings
  import opened InternalKeys
  import opened Reads
  import opened Files
  import opened Lookup
  import opened Compaction
  import opened CompactionInputs

  /** The output files: consecutive numbers, key ranges taken from the entries. */
  function OutputFiles(parts: seq<seq<Entry>>, first: nat): seq<File>
    requires NonEmpty(parts)
  {
    if parts == [] then []
    else
      var n := |parts| - 1;
      var p := parts[n];
      OutputFiles(parts[..n], first) + [File(first + n, |p|, p[0].key, p[|p| - 1].key, p)]
  }

  lemma {:induction false} OutputEntries(parts: seq<seq<Entry>>, first: nat)
    requires NonEmpty(parts)
    ensures EntriesOf(OutputFiles(parts, first)) == Contents(Flatten(parts))
  {
    if parts != [] {
      var n := |parts| - 1;
      OutputEntries(parts[..n], first);
      assert Contents(Flatten(parts)) == Contents(Flatten(parts[..n])) + Contents(parts[n]);
      var files := OutputFiles(parts, first);
      assert files[..n] == OutputFiles(parts[..n], first) by { OutputCount(parts[..n], first); }
      assert files == files[..n] + [files[n]];
      assert EntriesOf(files) == EntriesOf(files[..n]) + Contents(files[n].entries);
    }
  }

  lemma {:induction false} OutputCount(parts: seq<seq<Entry>>, first: nat)
    requires NonEmpty(parts)
    ensures |OutputFiles(parts, first)| == |parts|
  {
    if parts != [] {
      OutputCount(parts[..|parts| - 1], first);
    }
  }

  lemma {:induction false} SortedPieces(a: seq<Entry>, b: seq<Entry>)
    requires Sorted(a + b)
    ensures Sorted(a) && Sorted(b)
    ensures forall i, j :: 0 <= i < |a| && 0 <= j < |b| ==> Before(a[i].key, b[j].key)
  {
    var c := a + b;
    forall i, j | 0 <= i < j < |a|
      ensures Before(a[i].key, a[j].key)
    {
      assert Before(c[i].key, c[j].key);
    }
    forall i, j | 0 <= i < j < |b|
      ensures Before(b[i].key, b[j].key)
    {
      assert Before(c[|a| + i].key, c[|a| + j].key);
    }
    forall i, j | 0 <= i < |a| && 0 <= j < |b|
      ensures Before(a[i].key, b[j].key)
    {
      assert Before(c[i].key, c[|a| + j].key);
    }
  }

  /** Cutting a sorted run of entries anywhere gives files in order and apart. */
  lemma {:induction false} OutputsDisjoint(parts: seq<seq<Entry>>, first: nat)
    requires NonEmpty(parts) && Sorted(Flatten(parts))
    ensures Disjoint(OutputFiles(parts, first))
  {
    if parts != [] {
      var n := |parts| - 1;
      var front, p := parts[..n], parts[n];
      SortedPieces(Flatten(front), p);
      OutputsDisjoint(front, first);
      OutputCount(front, first);
      var files := OutputFiles(parts, first);
      forall i, j | 0 <= i < j < |files|
        ensures Before(files[i].largest, files[j].smallest)
      {
        if j == n {
          OutputEntries(front, first);
          var f := OutputFiles(front, first)[i];
          assert f in OutputFiles(front, first) && f.Ok();
          var last := f.entries[|f.entries| - 1];
          assert last in f.entries && last in EntriesOf(OutputFiles(front, first));
          var k: nat :| k < |Flatten(front)| && Flatten(front)[k] == last;
          assert Before(Flatten(front)[k].key, p[0].key);
        } else {
          assert Before(OutputFiles(front, first)[i].largest, OutputFiles(front, first)[j].smallest);
        }
      }
    }
  }

  lemma {:induction false} KeptSorted(es: seq<Entry>, s: SequenceNumber, v: Levels, level: nat, n: nat)
    requires Sorted(es) && n <= |es|
    ensures Sorted(Kept(es, s, v, level, n))
  {
    if n > 0 {
      var kept := Kept(es, s, v, level, n - 1);
      KeptSorted(es, s, v, level, n - 1);
      forall i | 0 <= i < |kept|
        ensures Before(kept[i].key, es[n - 1].key)
      {
        KeptMember(es, s, v, level, n - 1, kept[i]);
        var k: nat :| k < n - 1 && es[k] == kept[i];
        assert Before(es[k].key, es[n - 1].key);
      }
      var r := Kept(es, s, v, level, n);
      forall i, j | 0 <= i < j < |r|
        ensures Before(r[i].key, r[j].key)
      {
        assert j < |kept| ==> Before(kept[i].key, kept[j].key);
      }
    }
  }

  ghost function Left(v: Levels, level: nat, in0: seq<File>, in1: seq<File>): set<Entry>
    requires level + 1 < NUM_LEVELS
  {
    EntriesOf(Without(v[level], in0)) + EntriesOf(Without(v[level + 1], in1))
  }

  ghost function EntriesBelow(v: Levels, level: nat): set<Entry> {
    set l, f, e | level + 2 <= l < NUM_LEVELS && f in v[l] && e in f.entries :: e
  }

  /** What the compaction does not touch. */
  ghost function Rest(db: Db, level: nat, in0: seq<File>, in1: seq<File>): set<Entry>
    requires level + 1 < NUM_LEVELS
  {
    (Contents(db.mem) + db.Imm() + EntriesAbove(db.v, level)) + Left(db.v, level, in0, in1) + EntriesBelow(db.v, level)
  }

  lemma {:induction false} SplitByLevel(v: Levels, level: nat)
    requires level + 1 < NUM_LEVELS
    ensures EntriesAbove(v, NUM_LEVELS) ==
      EntriesAbove(v, level) + EntriesOf(v[level]) + EntriesOf(v[level + 1]) + EntriesBelow(v, level)
  {
    forall l, f, e | 0 <= l < NUM_LEVELS && f in v[l] && e in f.entries
      ensures e in EntriesAbove(v, level) + EntriesOf(v[level]) + EntriesOf(v[level + 1]) + EntriesBelow(v, level)
    {
      assert l < level ==> e in EntriesAbove(v, level);
      assert l > level + 1 ==> e in EntriesBelow(v, level);
    }
  }

  lemma {:induction false} SplitFiles(files: seq<File>, drop: seq<File>)
    requires Subset(drop, files)
    ensures EntriesOf(files) == EntriesOf(drop) + EntriesOf(Without(files, drop))
  {
    forall f
      ensures f in files <==> f in drop || f in Without(files, drop)
    {
      WithoutMember(files, drop, f);
    }
  }

  lemma {:induction false} AddedEntries(files: seq<File>, outputs: seq<File>)
    ensures EntriesOf(AddFiles(files, outputs)) == EntriesOf(files) + EntriesOf(outputs)
  {
    forall f
      ensures f in AddFiles(files, outputs) <==> f in files || f in outputs
    {
      AddFilesMember(files, outputs, f);
    }
  }

  lemma {:induction false} Regroup<T>(m: set<T>, a: set<T>, i0: set<T>, w0: set<T>, i1: set<T>, w1: set<T>, b: set<T>)
    ensures m + (a + (i0 + w0) + (i1 + w1) + b) == (i0 + i1) + ((m + a) + (w0 + w1) + b)
  {
  }

  lemma {:induction false} EntriesBefore(db: Db, level: nat, in0: seq<File>, in1: seq<File>)
    requires InputsOk(db.v, level, in0, in1)
    ensures db.All() == EntriesOf(in0) + EntriesOf(in1) + Rest(db, level, in0, in1)
  {
    var v := db.v;
    SplitByLevel(v, level);
    SplitFiles(v[level], in0);
    LowerInputs(v, level, in0, in1);
    SplitFiles(v[level + 1], in1);
    Regroup(Contents(db.mem) + db.Imm(), EntriesAbove(v, level), EntriesOf(in0), EntriesOf(Without(v[level], in0)),
      EntriesOf(in1), EntriesOf(Without(v[level + 1], in1)), EntriesBelow(v, level));
  }

  lemma {:induction false} EntriesAfter(db: Db, level: nat, in0: seq<File>, in1: seq<File>, outputs: seq<File>)
    requires level + 1 < NUM_LEVELS
    ensures Db(db.mem, db.imm, Installed(db.v, level, in0, in1, outputs)).All() ==
      EntriesOf(outputs) + Rest(db, level, in0, in1)
  {
    var v, v' := db.v, Installed(db.v, level, in0, in1, outputs);
    SplitByLevel(v', level);
    SameElsewhere(v, level, in0, in1, outputs);
    AddedEntries(Without(v[level + 1], in1), outputs);
    var w0, w1 := EntriesOf(Without(v[level], in0)), EntriesOf(Without(v[level + 1], in1));
    assert {} + w0 == w0;
    assert w1 + EntriesOf(outputs) == EntriesOf(outputs) + w1;
    Regroup(Contents(db.mem) + db.Imm(), EntriesAbove(v, level), {}, w0, EntriesOf(outputs), w1,
        EntriesBelow(v, level));
    assert {} + EntriesOf(outputs) == EntriesOf(outputs);
  }

  lemma {:induction false} SameElsewhere(v: Levels, level: nat, in0: seq<File>, in1: seq<File>, outputs: seq<File>)
    requires level + 1 < NUM_LEVELS
    ensures var v' := Installed(v, level, in0, in1, outputs);
      && v'[level] == Without(v[level], in0)
      && EntriesAbove(v', level) == EntriesAbove(v, level)
      && EntriesBelow(v', level) == EntriesBelow(v, level)
  {
    var v' := Installed(v, level, in0, in1, outputs);
    assert forall l :: 0 <= l < NUM_LEVELS && l != level && l != level + 1 ==> v'[l] == v[l];
    forall e
      ensures e in EntriesAbove(v', level) <==> e in EntriesAbove(v, level)
      ensures e in EntriesBelow(v', level) <==> e in EntriesBelow(v, level)
    {
      if e in EntriesAbove(v, level) {
        var l, f :| 0 <= l < level && f in v[l] && e in f.entries;
        assert f in v'[l];
      }
      if e in EntriesBelow(v, level) {
        var l, f :| level + 2 <= l < NUM_LEVELS && f in v[l] && e in f.entries;
        assert f in v'[l];
      }
    }
  }

  lemma {:induction false} LowerInputs(v: Levels, level: nat, in0: seq<File>, in1: seq<File>)
    requires InputsOk(v, level, in0, in1)
    ensures Subset(in1, v[level + 1])
  {
    var smallest, largest :| IsRange(in0, smallest, largest) &&
      in1 == Overlap.Select(v[level + 1], Some(smallest.user), Some(largest.user));
    forall f | f in in1
      ensures f in v[level + 1]
    {
      Overlap.SelectMember(v[level + 1], Some(smallest.user), Some(largest.user), f);
    }
  }

  lemma {:induction false} ShallowerIsNewer(db: Db, level: nat, in0: seq<File>, in1: seq<File>)
    requires db.Ordered() && InputsOk(db.v, level, in0, in1)
    ensures NewerThan(Contents(db.mem) + db.Imm() + EntriesAbove(db.v, level), EntriesOf(in0) + EntriesOf(in1))
  {
    var v := db.v;
    forall d, e | d in Contents(db.mem) + db.Imm() + EntriesAbove(v, level) && e in EntriesOf(in0) + EntriesOf(in1)
      ensures d.key.user == e.key.user ==> Tag(d.key) > Tag(e.key)
    {
      InputEntries(v, level, in0, in1, e);
      assert NewerThan(EntriesAbove(v, level), EntriesOf(v[level]));
      assert NewerThan(EntriesAbove(v, level + 1), EntriesOf(v[level + 1]));
      assert e in EntriesAbove(v, NUM_LEVELS);
      assert d in EntriesAbove(v, level) ==> d in EntriesAbove(v, level + 1);
    }
  }

  lemma {:induction false} ClosedKeepsOrder(db: Db, level: nat, in0: seq<File>, in1: seq<File>, outputs: seq<File>)
    requires db.Ordered() && InputsOk(db.v, level, in0, in1) && OutputsOk(in0, in1, outputs)
    requires forall e :: e in EntriesOf(in0) + EntriesOf(in1) ==> !UserIn(Left(db.v, level, in0, in1), e.key.user)
    ensures LevelsOrdered(Installed(db.v, level, in0, in1, outputs))
  {
    forall d, e | d in EntriesOf(Without(db.v[level], in0)) && e in EntriesOf(outputs)
      ensures d.key.user != e.key.user
    {
      assert !UserIn(Left(db.v, level, in0, in1), e.key.user);
      assert d in Left(db.v, level, in0, in1);
    }
    InstalledOrdered(db.v, level, in0, in1, outputs);
  }

  lemma {:induction false} StaysOrdered(db: Db, db': Db)
    requires db.Ordered() && db'.mem == db.mem && db'.imm == db.imm
    requires WellShaped(db'.v) && LevelsOrdered(db'.v)
    requires EntriesAbove(db'.v, NUM_LEVELS) <= EntriesAbove(db.v, NUM_LEVELS)
    ensures db'.Ordered()
  {
    assert db'.All() <= db.All();
  }

  lemma {:induction false} InstalledSubset(db: Db, level: nat, in0: seq<File>, in1: seq<File>, outputs: seq<File>)
    requires InputsOk(db.v, level, in0, in1) && OutputsOk(in0, in1, outputs)
    ensures EntriesAbove(Installed(db.v, level, in0, in1, outputs), NUM_LEVELS) <= EntriesAbove(db.v, NUM_LEVELS)
  {
    var v, v' := db.v, Installed(db.v, level, in0, in1, outputs);
    forall l, f, e | 0 <= l < NUM_LEVELS && f in v'[l] && e in f.entries
      ensures e in EntriesAbove(v, NUM_LEVELS)
    {
      InstalledMember(v, level, in0, in1, outputs, l, f);
      if f !in v[l] {
        InputEntries(v, level, in0, in1, e);
      }
    }
  }

  lemma {:induction false} OutputsAreOk(in0: seq<File>, in1: seq<File>, es: seq<Entry>, kept: seq<Entry>,
                     parts: seq<seq<Entry>>, first: nat)
    requires Contents(es) == EntriesOf(in0) + EntriesOf(in1) && Contents(kept) <= Contents(es)
    requires NonEmpty(parts) && Flatten(parts) == kept && Sorted(kept)
    ensures OutputsOk(in0, in1, OutputFiles(parts, first))
    ensures EntriesOf(OutputFiles(parts, first)) == Contents(kept)
  {
    var outputs := OutputFiles(parts, first);
    OutputsDisjoint(parts, first);
    OutputEntries(parts, first);
    forall o, e | o in outputs && e in o.entries
      ensures e in EntriesOf(in0) + EntriesOf(in1)
    {
      assert e in EntriesOf(outputs);
    }
  }

  /** Whatever the compaction writes and wherever it cuts its files, as long as it takes
      in all versions of its user keys the database stays in order. */
  lemma {:induction false} CompactionKeepsOrder(db: Db, level: nat, in0: seq<File>, in1: seq<File>, outputs: seq<File>)
    requires db.Ordered() && InputsOk(db.v, level, in0, in1) && OutputsOk(in0, in1, outputs)
    requires forall e :: e in EntriesOf(in0) + EntriesOf(in1) ==> !UserIn(Left(db.v, level, in0, in1), e.key.user)
    ensures Db(db.mem, db.imm, Installed(db.v, level, in0, in1, outputs)).Ordered()
  {
    InstalledShaped(db.v, level, in0, in1, outputs);
    ClosedKeepsOrder(db, level, in0, in1, outputs);
    InstalledSubset(db, level, in0, in1, outputs);
    StaysOrdered(db, Db(db.mem, db.imm, Installed(db.v, level, in0, in1, outputs)));
  }

  /** The database with the outputs of the compaction in place of its inputs. */
  ghost function Compacted(db: Db, level: nat, in0: seq<File>, in1: seq<File>, parts: seq<seq<Entry>>, first: nat): Db
    requires level + 1 < NUM_LEVELS && NonEmpty(parts)
  {
    Db(db.mem, db.imm, Installed(db.v, level, in0, in1, OutputFiles(parts, first)))
  }

  ghost predicate SameReads(before: set<Entry>, after: set<Entry>, s: SequenceNumber) {
    forall user: Bytes, t: SequenceNumber {:trigger Read(before, user, t)} :: t >= s ==>
        Read(after, user, t) == Read(before, user, t)
  }

  /** For any inputs the selection may hand over: no read at the oldest snapshot or later changes in
      the whole database, if and only if no dropped deletion uncovers a value left where it was. */
  lemma {:induction false} CompactionKeepsReadsIff(db: Db, level: nat, in0: seq<File>, in1: seq<File>, es: seq<Entry>,
                             s: SequenceNumber, parts: seq<seq<Entry>>, first: nat)
    requires db.Ordered() && InputsOk(db.v, level, in0, in1)
    requires Sorted(es) && Contents(es) == EntriesOf(in0) + EntriesOf(in1)
    requires NonEmpty(parts) && Flatten(parts) == Kept(es, s, db.v, level, |es|)
    ensures SameReads(db.All(), Compacted(db, level, in0, in1, parts, first).All(), s) <==>
      !SomeUncovered(es, s, db.v, level, Rest(db, level, in0, in1))
  {
    hide Rest, SomeUncovered, Flatten, Kept, Read;
    var kept, rest := Kept(es, s, db.v, level, |es|), Rest(db, level, in0, in1);
    EntriesBefore(db, level, in0, in1);
    EntriesAfter(db, level, in0, in1, OutputFiles(parts, first));
    OutputEntries(parts, first);
    PreservesIff(es, s, db.v, level, rest);
    var before, after := Contents(es) + rest, Contents(kept) + rest;
    assert before == db.All() && after == Compacted(db, level, in0, in1, parts, first).All();
    if Preserves(es, kept, rest, s) {
      forall user: Bytes, t: SequenceNumber | t >= s
        ensures Read(after, user, t) == Read(before, user, t)
      {
        assert Read(Contents(es) + rest, user, t) == Read(Contents(kept) + rest, user, t);
      }
    }
    if SameReads(before, after, s) {
      forall user: Bytes, t: SequenceNumber | t >= s
        ensures Read(Contents(es) + rest, user, t) == Read(Contents(kept) + rest, user, t)
      {
        assert Read(after, user, t) == Read(before, user, t);
      }
    }
  }

  /** The database stays in order, so that lookups may go on stopping at the first answer, exactly when
      no file that stays on the upper level goes on with a user key of which an entry is kept that an
      upper input held; out of level 0 it always does. */
  lemma {:induction false} CompactionKeepsOrderIff(db: Db, level: nat, in0: seq<File>, in1: seq<File>, es: seq<Entry>,
                             s: SequenceNumber, parts: seq<seq<Entry>>, first: nat)
    requires db.Ordered() && InputsOk(db.v, level, in0, in1)
    requires Sorted(es) && Contents(es) == EntriesOf(in0) + EntriesOf(in1)
    requires NonEmpty(parts) && Flatten(parts) == Kept(es, s, db.v, level, |es|)
    ensures Compacted(db, level, in0, in1, parts, first).Ordered() <==>
      level == 0 || !BorderSplit(db.v[level], in0, Contents(Kept(es, s, db.v, level, |es|)))
  {
    hide BorderSplit, Kept, Flatten, OutputFiles, Installed, LevelsOrdered, WellShaped, OutputsOk;
    var kept, outputs := Kept(es, s, db.v, level, |es|), OutputFiles(parts, first);
    KeptSorted(es, s, db.v, level, |es|);
    KeptSubset(es, s, db.v, level);
    OutputsAreOk(in0, in1, es, kept, parts, first);
    InstalledShaped(db.v, level, in0, in1, outputs);
    InstalledSubset(db, level, in0, in1, outputs);
    var db' := Compacted(db, level, in0, in1, parts, first);
    if level == 0 {
      Level0KeepsOrder(db.v, in0, in1, outputs);
    } else {
      InstalledOrderedBorder(db.v, level, in0, in1, outputs);
    }
    if LevelsOrdered(db'.v) {
      StaysOrdered(db, db');
    }
  }

  /** With inputs closed under user key no read changes, and the database stays in order. */
  lemma {:induction false} CompactionKeepsReads(db: Db, level: nat, in0: seq<File>, in1: seq<File>, es: seq<Entry>,
                             s: SequenceNumber, parts: seq<seq<Entry>>, first: nat)
    requires db.Ordered() && InputsOk(db.v, level, in0, in1)
    requires Sorted(es) && Contents(es) == EntriesOf(in0) + EntriesOf(in1)
    requires NonEmpty(parts) && Flatten(parts) == Kept(es, s, db.v, level, |es|)
    requires ClosedUnderUser(es, Left(db.v, level, in0, in1))
    ensures var db' := Compacted(db, level, in0, in1, parts, first);
      db'.Ordered() && SameReads(db.All(), db'.All(), s)
  {
    var kept, outputs := Kept(es, s, db.v, level, |es|), OutputFiles(parts, first);
    KeptSorted(es, s, db.v, level, |es|);
    KeptSubset(es, s, db.v, level);
    OutputsAreOk(in0, in1, es, kept, parts, first);
    CompactionKeepsOrder(db, level, in0, in1, outputs);
    EntriesBefore(db, level, in0, in1);
    ShallowerIsNewer(db, level, in0, in1);
    ClosedInputsPreserve(es, s, db.v, level, Contents(db.mem) + db.Imm() + EntriesAbove(db.v, level),
      Left(db.v, level, in0, in1), EntriesBelow(db.v, level));
    PreservesIff(es, s, db.v, level, Rest(db, level, in0, in1));
    CompactionKeepsReadsIff(db, level, in0, in1, es, s, parts, first);
  }
}
