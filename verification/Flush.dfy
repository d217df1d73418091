/** Writing the immutable memtable out as a file, at the level picked for it. */
module Flush {
  import opened ByteStrings
  import opened InternalKeys
  import opened Reads
  import opened Files
  import opened Overlap
  import opened Lookup

  const MAX_MEM_COMPACT_LEVEL := 2
  const TARGET_FILE_SIZE := 2 * 1048576
  const MAX_GRANDPARENT_OVERLAP := 10 * TARGET_FILE_SIZE

  function TotalFileSize(files: seq<File>): nat {
    if files == [] then 0 else files[0].size + TotalFileSize(files[1..])
  }

  ghost predicate OverlapInLevel(files: seq<File>, smallest: Option<Bytes>, largest: Option<Bytes>) {
    exists f :: f in files && Overlaps(f, smallest, largest)
  }

  method SomeFileOverlapsRange(disjointSorted: bool, files: seq<File>, smallest: Option<Bytes>, largest: Option<Bytes>)
    returns (b: bool)
    requires disjointSorted ==> Disjoint(files)
    ensures b <==> OverlapInLevel(files, smallest, largest)
  {
    if !disjointSorted {
      for i := 0 to |files|
        invariant forall f :: f in files[..i] ==> !Overlaps(f, smallest, largest)
      {
        if !(AfterFile(smallest, files[i]) || BeforeFile(largest, files[i])) {
          assert Overlaps(files[i], smallest, largest);
          return true;
        }
      }
      return false;
    }
    var index := 0;
    if smallest.Some? {
      index := FindFile(files, SeekKey(smallest.value, MAX_SEQUENCE));
    }
    if index >= |files| {
      OnlyOneCandidate(files, smallest, largest, index);
      return false;
    }
    OnlyOneCandidate(files, smallest, largest, index);
    return !BeforeFile(largest, files[index]);
  }

  lemma {:induction false} OnlyOneCandidate(files: seq<File>, smallest: Option<Bytes>, largest: Option<Bytes>,
        index: nat)
    requires Disjoint(files) && index <= |files|
    requires smallest.None? ==> index == 0
    requires smallest.Some? ==> forall i :: 0 <= i < index ==>
        Before(files[i].largest, SeekKey(smallest.value, MAX_SEQUENCE))
    requires smallest.Some? && index < |files| ==> !Before(files[index].largest, SeekKey(smallest.value, MAX_SEQUENCE))
    ensures OverlapInLevel(files, smallest, largest) <==> index < |files| && !BeforeFile(largest, files[index])
  {
    forall i | 0 <= i < |files| && Overlaps(files[i], smallest, largest)
      ensures index <= i && !BeforeFile(largest, files[index])
    {
      if index < i {
        RangeOrdered(files[index]);
        assert Before(files[index].largest, files[i].smallest);
      }
    }
    if index < |files| && !BeforeFile(largest, files[index]) {
      assert Overlaps(files[index], smallest, largest);
    }
  }

  /** A memtable may go below level 0 only past levels its range does not touch. */
  ghost predicate MayLandAt(v: Levels, level: nat, smallest: Bytes, largest: Bytes) {
    && level <= MAX_MEM_COMPACT_LEVEL
    && (level > 0 ==> forall l :: 0 <= l <= level ==> !OverlapInLevel(v[l], Some(smallest), Some(largest)))
  }

  /** The bytes of the files that meet the range. */
  function OverlapBytes(files: seq<File>, smallest: Bytes, largest: Bytes): nat {
    if files == [] then 0
    else
      var n := |files| - 1;
      OverlapBytes(files[..n], smallest, largest) +
        if Overlaps(files[n], Some(smallest), Some(largest)) then files[n].size else 0
  }

  /** From this level a memtable goes one further down: no file there meets its range, and those on the
      level after that have at most 20 megabytes. */
  ghost predicate GoesDown(v: Levels, level: nat, smallest: Bytes, largest: Bytes) {
    && level < 2
    && !OverlapInLevel(v[level + 1], Some(smallest), Some(largest))
    && OverlapBytes(v[level + 2], smallest, largest) <= 20 * 1048576
  }

  /** As deep as it goes, and not at all if its range meets level 0. */
  ghost predicate Deepest(v: Levels, level: nat, smallest: Bytes, largest: Bytes) {
    if OverlapInLevel(v[0], Some(smallest), Some(largest)) then level == 0
    else !GoesDown(v, level, smallest, largest) && forall l :: 0 <= l < level ==> GoesDown(v, l, smallest, largest)
  }

  lemma {:induction false} TotalAppends(files: seq<File>, f: File)
    ensures TotalFileSize(files + [f]) == TotalFileSize(files) + f.size
  {
    if files == [] {
      assert [] + [f] == [f] && [f][1..] == [];
    } else {
      TotalAppends(files[1..], f);
      assert (files + [f])[1..] == files[1..] + [f];
    }
  }

  lemma {:induction false} SelectedBytes(files: seq<File>, smallest: Bytes, largest: Bytes)
    ensures TotalFileSize(Select(files, Some(smallest), Some(largest))) == OverlapBytes(files, smallest, largest)
  {
    hide Overlaps;
    if files != [] {
      var n := |files| - 1;
      SelectedBytes(files[..n], smallest, largest);
      var before := Select(files[..n], Some(smallest), Some(largest));
      assert before + [] == before;
      TotalAppends(before, files[n]);
    }
  }

  method PickLevelForMemTableOutput(v: Levels, smallest: Bytes, largest: Bytes) returns (level: nat)
    requires WellShaped(v)
    ensures MayLandAt(v, level, smallest, largest) && Deepest(v, level, smallest, largest)
  {
    hide Rank, OverlapInLevel, TotalFileSize, OverlapBytes, Select;
    level := 0;
    var overlap := SomeFileOverlapsRange(false, v[0], Some(smallest), Some(largest));
    if !overlap {
      while level < MAX_MEM_COMPACT_LEVEL
        invariant level <= MAX_MEM_COMPACT_LEVEL
        invariant forall l :: 0 <= l <= level ==> !OverlapInLevel(v[l], Some(smallest), Some(largest))
        invariant forall l :: 0 <= l < level ==> GoesDown(v, l, smallest, largest)
      {
        overlap := SomeFileOverlapsRange(true, v[level + 1], Some(smallest), Some(largest));
        if overlap {
          break;
        }
        if level + 2 < NUM_LEVELS {
          var overlaps := GetOverlappingInputs(v[level + 2], level + 2, Some(smallest), Some(largest));
          SelectedBytes(v[level + 2], smallest, largest);
          if TotalFileSize(overlaps) > MAX_GRANDPARENT_OVERLAP {
            break;
          }
        }
        level := level + 1;
      }
    }
  }

  /** A file none of whose levels above it touches its range fits at its level. */
  lemma {:induction false} FitsAt(v: Levels, level: nat, f: File)
    requires WellShaped(v) && f.Ok() && level > 0 && MayLandAt(v, level, f.smallest.user, f.largest.user)
    ensures forall l, g :: 0 <= l <= level && g in v[l] ==>
      g.Ok() && Apart(f, g) && forall d, e :: d in f.entries && e in g.entries ==> d.key.user != e.key.user
  {
    forall l, g | 0 <= l <= level && g in v[l]
      ensures g.Ok() && Apart(f, g) && forall d, e :: d in f.entries && e in g.entries ==> d.key.user != e.key.user
    {
      assert !Overlaps(g, Some(f.smallest.user), Some(f.largest.user));
      forall d, e | d in f.entries && e in g.entries
        ensures d.key.user != e.key.user
      {
        InRange(f, d);
        InRange(g, e);
      }
    }
  }

  lemma {:induction false} FlushedLevelsShaped(v: Levels, level: nat, f: File)
    requires WellShaped(v) && f.Ok() && MayLandAt(v, level, f.smallest.user, f.largest.user)
    ensures WellShaped(v[level := AddFile(v[level], f)])
  {
    AddFileMember(v[level], f);
    if level > 0 {
      FitsAt(v, level, f);
      AddFileDisjoint(v[level], f);
    }
  }

  lemma {:induction false} AboveAfterFlush(v: Levels, v': Levels, level: nat, f: File, l: nat)
    requires level < NUM_LEVELS && l <= NUM_LEVELS && v' == v[level := AddFile(v[level], f)]
    ensures EntriesAbove(v', l) == EntriesAbove(v, l) + if level < l then Contents(f.entries) else {}
  {
    hide AddFile;
    AddFileMember(v[level], f);
    forall e | e in EntriesAbove(v, l) + if level < l then Contents(f.entries) else {}
      ensures e in EntriesAbove(v', l)
    {
      if e in EntriesAbove(v, l) {
        var k, g :| 0 <= k < l && g in v[k] && e in g.entries;
        assert g in v'[k];
      } else {
        assert f in v'[level];
      }
    }
  }

  lemma {:induction false} LevelAfterFlush(v: Levels, v': Levels, level: nat, f: File, l: nat)
    requires level < NUM_LEVELS && l < NUM_LEVELS && v' == v[level := AddFile(v[level], f)]
    ensures EntriesOf(v'[l]) == EntriesOf(v[l]) + if level == l then Contents(f.entries) else {}
    ensures EntriesOf(v[l]) <= EntriesAbove(v, NUM_LEVELS)
  {
    hide AddFile;
    AddFileMember(v[level], f);
  }

  /** Nothing above the level where the file lands holds a user key of the file. */
  lemma {:induction false} NothingAbove(v: Levels, level: nat, f: File)
    requires WellShaped(v) && f.Ok() && MayLandAt(v, level, f.smallest.user, f.largest.user)
    ensures forall d, e :: d in EntriesAbove(v, level) && e in f.entries ==> d.key.user != e.key.user
  {
    hide Rank;
    if level > 0 {
      FitsAt(v, level, f);
    }
  }

  lemma {:induction false} FlushedLevelOrdered(v: Levels, v': Levels, level: nat, f: File, l: nat)
    requires WellShaped(v) && LevelsOrdered(v) && f.Ok()
    requires MayLandAt(v, level, f.smallest.user, f.largest.user)
    requires NewerThan(Contents(f.entries), EntriesAbove(v, NUM_LEVELS))
    requires v' == v[level := AddFile(v[level], f)] && l < NUM_LEVELS
    ensures NewerThan(EntriesAbove(v', l), EntriesOf(v'[l]))
  {
    hide AddFile, WellShaped, EntriesAbove, EntriesOf, OverlapInLevel;
    AboveAfterFlush(v, v', level, f, l);
    LevelAfterFlush(v, v', level, f, l);
    NothingAbove(v, level, f);
    assert NewerThan(EntriesAbove(v, l), EntriesOf(v[l]));
  }

  /** The flushed file is newer than everything deeper, and meets no user key above. */
  lemma {:induction false} FlushedLevelsOrdered(v: Levels, level: nat, f: File)
    requires WellShaped(v) && LevelsOrdered(v) && f.Ok()
    requires MayLandAt(v, level, f.smallest.user, f.largest.user)
    requires NewerThan(Contents(f.entries), EntriesAbove(v, NUM_LEVELS))
    requires forall g :: g in v[0] ==> g.number < f.number
    ensures LevelsOrdered(v[level := AddFile(v[level], f)])
  {
    hide Rank, AddFile;
    var v' := v[level := AddFile(v[level], f)];
    AddFileMember(v[level], f);
    forall l | 0 <= l < NUM_LEVELS
      ensures NewerThan(EntriesAbove(v', l), EntriesOf(v'[l]))
    {
      FlushedLevelOrdered(v, v', level, f, l);
    }
    if level == 0 {
      forall h | h in v[0]
        ensures NewerThan(Contents(f.entries), Contents(h.entries))
      {
        assert forall e :: e in Contents(h.entries) ==> e in EntriesAbove(v, NUM_LEVELS);
      }
    }
  }

  lemma {:induction false} FlushedEntries(v: Levels, level: nat, f: File)
    requires level < NUM_LEVELS
    ensures EntriesAbove(v[level := AddFile(v[level], f)], NUM_LEVELS) ==
        EntriesAbove(v, NUM_LEVELS) + Contents(f.entries)
  {
    AboveAfterFlush(v, v[level := AddFile(v[level], f)], level, f, NUM_LEVELS);
  }

  /** A full memtable becomes the immutable one. */
  lemma {:induction false} SwitchMemTable(db: Db)
    requires db.Ordered() && db.imm.None?
    ensures Db([], Some(db.mem), db.v).Ordered()
    ensures Db([], Some(db.mem), db.v).All() == db.All()
  {
  }

  lemma {:induction false} FlushedDbOrdered(db: Db, db': Db, f: File)
    requires db.Ordered() && db.imm == Some(f.entries)
    requires db'.mem == db.mem && db'.imm == None && WellShaped(db'.v) && LevelsOrdered(db'.v)
    requires EntriesAbove(db'.v, NUM_LEVELS) == EntriesAbove(db.v, NUM_LEVELS) + Contents(f.entries)
    ensures db'.Ordered() && db'.All() == db.All()
  {
    hide Rank, Sorted, WellShaped, LevelsOrdered, EntriesAbove;
    assert db'.All() == db.All();
    assert NewerThan(Contents(db'.mem) + db'.Imm(), EntriesAbove(db'.v, NUM_LEVELS)) by {
      assert db.Imm() == Contents(f.entries);
      assert NewerThan(Contents(db.mem), db.Imm());
      assert forall d :: d in Contents(db.mem) ==> d in Contents(db.mem) + db.Imm();
    }
  }

  lemma {:induction false} NewerImm(db: Db)
    requires db.Ordered()
    ensures NewerThan(db.Imm(), EntriesAbove(db.v, NUM_LEVELS))
  {
    assert forall d :: d in db.Imm() ==> d in Contents(db.mem) + db.Imm();
  }

  lemma {:induction false} DropEmptyImm(db: Db)
    requires db.Ordered() && db.imm == Some([])
    ensures Db(db.mem, None, db.v).Ordered() && Db(db.mem, None, db.v).All() == db.All()
  {
    assert db.Imm() == {} == Db(db.mem, None, db.v).Imm();
  }

  /** Writing the immutable memtable to a file changes no lookup. */
  method CompactMemTable(db: Db, number: nat, size: nat) returns (db': Db)
    requires db.Ordered() && db.imm.Some?
    requires forall g :: g in db.v[0] ==> g.number < number
    ensures db'.Ordered() && db'.imm == None && db'.mem == db.mem
    ensures db'.All() == db.All()
  {
    var es := db.imm.value;
    if es == [] {
      // An empty table is not written.
      DropEmptyImm(db);
      return Db(db.mem, None, db.v);
    }
    var f := File(number, size, es[0].key, es[|es| - 1].key, es);
    var level := PickLevelForMemTableOutput(db.v, f.smallest.user, f.largest.user);
    db' := Db(db.mem, None, db.v[level := AddFile(db.v[level], f)]);
    FlushedLevelsShaped(db.v, level, f);
    NewerImm(db);
    FlushedLevelsOrdered(db.v, level, f);
    FlushedEntries(db.v, level, f);
    FlushedDbOrdered(db, db', f);
  }
}
