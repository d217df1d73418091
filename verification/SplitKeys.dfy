/** Versions of one user key in two files of a level: inputs a compaction may be given for which
    its promises fail. */
module SplitKeys {
  import opened ByteStrings
  import opened InternalKeys
  import opened Reads
  import opened Files
  import opened Overlap
  import opened Lookup
  import opened Compaction
  import opened CompactionInputs
  import opened CompactionEffect

  const J: Bytes := [106]
  const K: Bytes := [107]
  const M: Bytes := [109]

  function Put(user: Bytes, seqno: SequenceNumber, value: Byte): Entry {
    Entry(IKey(user, seqno, Value), [value])
  }

  function FileOf(number: nat, es: seq<Entry>): File
    requires es != []
  {
    File(number, 100, es[0].key, es[|es| - 1].key, es)
  }

  /** A database with files on levels 1 and 2 only. */
  function TwoLevels(upper: seq<File>, lower: seq<File>): Db {
    Db([], None, [[], upper, lower, [], [], [], []])
  }

  lemma {:induction false} TwoLevelsHold(upper: seq<File>, lower: seq<File>)
    ensures var db := TwoLevels(upper, lower);
      && EntriesAbove(db.v, 1) == {} && EntriesAbove(db.v, 2) == EntriesOf(upper)
      && EntriesAbove(db.v, NUM_LEVELS) == EntriesOf(upper) + EntriesOf(lower) == db.All()
  {
    var v := TwoLevels(upper, lower).v;
    assert v[1] == upper && v[2] == lower;
    forall e
      ensures e in EntriesAbove(v, NUM_LEVELS) <==> e in EntriesOf(upper) + EntriesOf(lower)
    {
      assert e in EntriesOf(v[1]) ==> e in EntriesAbove(v, NUM_LEVELS);
      assert e in EntriesOf(v[2]) ==> e in EntriesAbove(v, NUM_LEVELS);
    }
    assert Contents([]) == {};
  }

  lemma {:induction false} AboveOf(upper: seq<File>, lower: seq<File>, l: nat)
    requires l < NUM_LEVELS
    ensures var v := TwoLevels(upper, lower).v;
      && EntriesAbove(v, l) == (if l < 2 then {} else if l == 2
          then EntriesOf(upper) else EntriesOf(upper) + EntriesOf(lower))
      && EntriesOf(v[l]) == if l == 1 then EntriesOf(upper) else if l == 2 then EntriesOf(lower) else {}
  {
    var v := TwoLevels(upper, lower).v;
    assert v[1] == upper && v[2] == lower && forall k :: 0 <= k < NUM_LEVELS && k != 1 && k != 2 ==> v[k] == [];
    forall e
      ensures l > 1 && e in EntriesOf(upper) ==> e in EntriesAbove(v, l)
      ensures l > 2 && e in EntriesOf(lower) ==> e in EntriesAbove(v, l)
    {
    }
  }

  lemma {:induction false} TwoLevelsShaped(upper: seq<File>, lower: seq<File>)
    requires Disjoint(upper) && Disjoint(lower)
    ensures WellShaped(TwoLevels(upper, lower).v) && OrderedByNumber(TwoLevels(upper, lower).v[0])
  {
    hide Before, File.Ok;
    var v := TwoLevels(upper, lower).v;
    forall l | 1 <= l < NUM_LEVELS
      ensures Disjoint(v[l])
    {
      assert l == 1 ==> v[l] == upper;
      assert l == 2 ==> v[l] == lower;
      assert l > 2 ==> v[l] == [];
    }
  }

  lemma {:induction false} TwoLevelsOrdered(upper: seq<File>, lower: seq<File>)
    requires Disjoint(upper) && Disjoint(lower)
    ensures LevelsOrdered(TwoLevels(upper, lower).v) <==> NewerThan(EntriesOf(upper), EntriesOf(lower))
    ensures NewerThan(EntriesOf(upper), EntriesOf(lower)) && UniqueKeys(EntriesOf(upper) + EntriesOf(lower)) ==>
      TwoLevels(upper, lower).Ordered()
  {
    hide EntriesOf, EntriesAbove, OrderedByNumber, WellShaped, Disjoint, Before;
    var db := TwoLevels(upper, lower);
    TwoLevelsShaped(upper, lower);
    TwoLevelsHold(upper, lower);
    AboveOf(upper, lower, 2);
    forall l | 0 <= l < NUM_LEVELS
      ensures l != 2 ==> NewerThan(EntriesAbove(db.v, l), EntriesOf(db.v[l]))
    {
      AboveOf(upper, lower, l);
    }
  }

  lemma {:induction false} OneEntry(number: nat, e: Entry)
    ensures FileOf(number, [e]).Ok() && EntriesOf([FileOf(number, [e])]) == {e}
  {
    var f := FileOf(number, [e]);
    assert f in [f] && e in f.entries;
  }

  // ----- a file moved past an older version

  const NEW_VALUE := Put(K, 2, 2)
  const OLD_VALUE := Put(K, 1, 1)
  const NEWER := FileOf(8, [NEW_VALUE])
  const OLDER := FileOf(9, [OLD_VALUE])

  lemma {:induction false} NewerFirst()
    ensures Disjoint([NEWER, OLDER]) && EntriesOf([NEWER, OLDER]) == {NEW_VALUE, OLD_VALUE}
    ensures Disjoint([NEWER]) && Disjoint([OLDER])
  {
    hide Rank;
    OneEntry(8, NEW_VALUE);
    OneEntry(9, OLD_VALUE);
    assert [NEWER, OLDER] == [NEWER] + [OLDER];
    assert EntriesOf([NEWER, OLDER]) == EntriesOf([NEWER]) + EntriesOf([OLDER]);
    assert Before(NEWER.largest, OLDER.smallest);
  }

  lemma {:induction false} WithoutFirst(a: File, b: File)
    requires a != b
    ensures Without([a, b], [a]) == [b]
  {
    assert [a, b][1..] == [b] && [b][1..] == [];
    assert Without([b], [a]) == [b] + Without([b][1..], [a]) == [b];
  }

  lemma {:induction false} InstalledTwo(upper: seq<File>, lower: seq<File>, in0: seq<File>, in1: seq<File>,
        outputs: seq<File>)
    ensures Installed(TwoLevels(upper, lower).v, 1, in0, in1, outputs) ==
      TwoLevels(Without(upper, in0), AddFiles(Without(lower, in1), outputs)).v
  {
    hide Without, AddFiles;
    var v := TwoLevels(upper, lower).v;
    assert v[1] == upper && v[2] == lower;
  }

  lemma {:induction false} MoveInstalled()
    ensures Installed(TwoLevels([NEWER, OLDER], []).v, 1, [NEWER], [], [NEWER]) == TwoLevels([OLDER], [NEWER]).v
  {
    var none: seq<File> := [];
    var both, move := [NEWER, OLDER], [NEWER];
    WithoutFirst(NEWER, OLDER);
    assert move[..0] == none && Without(none, none) == none;
    assert AddFiles(none, move) == AddFile(AddFiles(none, move[..0]), NEWER) == move;
    InstalledTwo(both, none, move, none, move);
    assert Installed(TwoLevels(both, none).v, 1, move, none, move) == TwoLevels([OLDER], move).v;
  }

  lemma {:induction false} MoveIsAllowed()
    ensures var db := TwoLevels([NEWER, OLDER], []);
      && InputsOk(db.v, 1, [NEWER], []) && OutputsOk([NEWER], [], [NEWER])
      && Installed(db.v, 1, [NEWER], [], [NEWER]) == TwoLevels([OLDER], [NEWER]).v
  {
    hide Before, Disjoint, EntriesOf;
    var v := TwoLevels([NEWER, OLDER], []).v;
    NewerFirst();
    OneEntry(8, NEW_VALUE);
    OneFileRange(NEWER);
    SelectInputs(v, 1, [NEWER], NEWER.smallest, NEWER.largest);
    MoveInstalled();
    assert forall o, e :: o in [NEWER] && e in o.entries ==> e in EntriesOf([NEWER]);
  }

  /** Moving down the first of two files that share a user key: nothing is lost, and yet a lookup,
      which goes level by level, now finds the older value. */
  lemma {:induction false} MoveHidesNewer()
    ensures var db := TwoLevels([NEWER, OLDER], []);
      var db' := Db([], None, Installed(db.v, 1, [NEWER], [], [NEWER]));
      && db.Ordered() && InputsOk(db.v, 1, [NEWER], []) && OutputsOk([NEWER], [], [NEWER])
      && db'.All() == db.All() && Read(db'.All(), K, 2) == Some(NEW_VALUE.value)
      && !LevelsOrdered(db'.v) && Continues(NEWER, OLDER)
      && forall r :: FirstAnswer(r, db'.v, K, 2) ==> r == Hit(OLD_VALUE)
  {
    var db := TwoLevels([NEWER, OLDER], []);
    hide Rank, InputsOk, OutputsOk, Installed, WellShaped, LevelsOrdered, Disjoint, EntriesOf, EntriesAbove,
      Db.Ordered, Db.All, Read;
    NewerFirst();
    OneEntry(8, NEW_VALUE);
    OneEntry(9, OLD_VALUE);
    NoEntries();
    MoveIsAllowed();
    TwoLevelsOrdered([NEWER, OLDER], []);
    TwoLevelsOrdered([OLDER], [NEWER]);
    TwoLevelsHold([NEWER, OLDER], []);
    TwoLevelsHold([OLDER], [NEWER]);
    assert Continues(NEWER, OLDER);
    assert db.Ordered();
    assert db.All() == {NEW_VALUE, OLD_VALUE};
    var db' := Db([], None, Installed(db.v, 1, [NEWER], [], [NEWER]));
    assert db' == TwoLevels([OLDER], [NEWER]);
    assert db'.All() == {NEW_VALUE, OLD_VALUE};
    assert Newest({NEW_VALUE, OLD_VALUE}, K, 2, NEW_VALUE);
    ReadNewest({NEW_VALUE, OLD_VALUE}, K, 2, NEW_VALUE);
    assert !LevelsOrdered(db'.v);
    forall r | FirstAnswer(r, db'.v, K, 2)
      ensures r == Hit(OLD_VALUE)
    {
      AnswerIsOlder(r);
    }
  }

  lemma {:induction false} NoEntries()
    ensures Disjoint([]) && EntriesOf([]) == {}
  {
  }

  lemma {:induction false} AnswerIsOlder(r: Found)
    requires FirstAnswer(r, TwoLevels([OLDER], [NEWER]).v, K, 2)
    ensures r == Hit(OLD_VALUE)
  {
    hide Rank, EntriesOf, EntriesAbove;
    var v := TwoLevels([OLDER], [NEWER]).v;
    OneEntry(9, OLD_VALUE);
    TwoLevelsHold([OLDER], [NEWER]);
    assert VisibleTo(OLD_VALUE, K, 2);
    if r.Hit? {
      var l: nat :| l < NUM_LEVELS && AnswersAt(r, v, l, K, 2);
      AboveOf([OLDER], [NEWER], l);
    }
  }

  // ----- a deletion dropped before an older version

  const FIRST := Put(J, 5, 1)
  const DELETION := Entry(IKey(K, 4, Deletion), [])
  const DELETED := Put(K, 3, 1)
  const LAST := Put(M, 2, 1)
  const DEEP_FIRST := Put(J, 1, 2)
  const DEEP_LAST := Put(M, 1, 2)

  /** The level is cut between the deletion and the value that it hides. */
  const UPPER_PICKED := FileOf(8, [FIRST, DELETION])
  const UPPER_LEFT := FileOf(9, [DELETED, LAST])
  const LOWER_PICKED := FileOf(6, [DEEP_FIRST])
  const LOWER_LEFT := FileOf(7, [DEEP_LAST])
  const UPPER := [UPPER_PICKED, UPPER_LEFT]
  const LOWER := [LOWER_PICKED, LOWER_LEFT]

  function SplitDb(): Db {
    TwoLevels(UPPER, LOWER)
  }

  lemma {:induction false} TwoFiles(a: File, b: File)
    requires a.Ok() && b.Ok() && Before(a.largest, b.smallest)
    ensures Disjoint([a, b]) && EntriesOf([a, b]) == Contents(a.entries) + Contents(b.entries)
  {
    hide Before, File.Ok;
    assert a in [a, b] && b in [a, b];
  }

  lemma {:induction false} SplitFiles()
    ensures Disjoint(UPPER) && EntriesOf(UPPER) == {FIRST, DELETION, DELETED, LAST}
    ensures Disjoint(LOWER) && EntriesOf(LOWER) == {DEEP_FIRST, DEEP_LAST}
  {
    hide Rank;
    KeysInOrder();
    assert Before(FIRST.key, DELETION.key) && Before(DELETED.key, LAST.key);
    TwoFiles(UPPER_PICKED, UPPER_LEFT);
    TwoFiles(LOWER_PICKED, LOWER_LEFT);
  }

  lemma {:induction false} SplitOrdered()
    ensures SplitDb().Ordered()
  {
    hide Disjoint, EntriesOf, Db.Ordered;
    SplitFiles();
    TwoLevelsOrdered(UPPER, LOWER);
  }

  /** What the selection hands over if it starts from the first file: not a move, and not expanded,
      because more upper files would take in one more lower file. */
  lemma {:induction false} SplitInputs()
    ensures var v := SplitDb().v;
      && InputsOk(v, 1, [UPPER_PICKED], [LOWER_PICKED])
      && Select(v[1], Some(J), Some(K)) == UPPER && Select(v[2], Some(J), Some(M)) == LOWER
  {
    hide Before, Select, InputsOk, IsRange, Overlaps;
    var v := SplitDb().v;
    assert v[1] == UPPER && v[2] == LOWER;
    SplitOverlaps();
    OneFileRange(UPPER_PICKED);
    SelectTwo(UPPER, Some(J), Some(K));
    SelectTwo(LOWER, Some(J), Some(K));
    SelectTwo(LOWER, Some(J), Some(M));
    assert UPPER_PICKED.smallest.user == J && UPPER_PICKED.largest.user == K;
    assert Select(LOWER, Some(J), Some(K)) == [LOWER_PICKED];
    SelectInputs(v, 1, [UPPER_PICKED], UPPER_PICKED.smallest, UPPER_PICKED.largest);
  }

  lemma {:induction false} SplitOverlaps()
    ensures Overlaps(UPPER_PICKED, Some(J), Some(K)) && Overlaps(UPPER_LEFT, Some(J), Some(K))
    ensures Overlaps(LOWER_PICKED, Some(J), Some(K)) && !Overlaps(LOWER_LEFT, Some(J), Some(K))
    ensures Overlaps(LOWER_PICKED, Some(J), Some(M)) && Overlaps(LOWER_LEFT, Some(J), Some(M))
  {
    hide Rank;
    KeysInOrder();
  }

  lemma {:induction false} SelectTwo(files: seq<File>, begin: Option<Bytes>, end: Option<Bytes>)
    requires |files| == 2
    ensures Select(files, begin, end) ==
      (if Overlaps(files[0], begin, end) then [files[0]] else []) +
          (if Overlaps(files[1], begin, end) then [files[1]] else [])
  {
    SelectStep(files, 0, begin, end);
    SelectStep(files, 1, begin, end);
    assert files[..0] == [] && files[..2] == files;
  }

  lemma {:induction false} KeysInOrder()
    ensures Rank(J) < Rank(K) < Rank(M)
  {
    hide Rank;
    assert CompareBytes(J, K) < 0 && CompareBytes(K, M) < 0;
  }

  /** The input files merged. */
  const MERGED := [FIRST, DEEP_FIRST, DELETION]

  lemma {:induction false} MergedInputs()
    ensures Sorted(MERGED) && Contents(MERGED) == EntriesOf([UPPER_PICKED]) + EntriesOf([LOWER_PICKED])
  {
    hide Rank;
    KeysInOrder();
    OneFile(UPPER_PICKED);
    OneFile(LOWER_PICKED);
    assert Before(FIRST.key, DEEP_FIRST.key) && Before(DEEP_FIRST.key, DELETION.key) && Before(FIRST.key, DELETION.key);
  }

  lemma {:induction false} OneFile(f: File)
    ensures EntriesOf([f]) == Contents(f.entries)
  {
    assert f in [f];
  }

  /** The value that the deletion hides is among what the compaction leaves in place. */
  lemma {:induction false} DeletedIsLeft()
    ensures Rest(SplitDb(), 1, [UPPER_PICKED], [LOWER_PICKED]) == {DELETED, LAST, DEEP_LAST}
  {
    hide EntriesAbove, EntriesOf, EntriesBelow;
    var db := SplitDb();
    AboveOf(UPPER, LOWER, 1);
    WithoutFirst(UPPER_PICKED, UPPER_LEFT);
    WithoutFirst(LOWER_PICKED, LOWER_LEFT);
    OneFile(UPPER_LEFT);
    OneFile(LOWER_LEFT);
    assert EntriesBelow(db.v, 1) == {} by {
      NothingDeeper();
    }
    assert Contents([]) == {};
  }

  lemma {:induction false} NothingDeeper()
    ensures EntriesBelow(SplitDb().v, 1) == {} && IsBase(SplitDb().v, 1, K)
  {
    assert forall l :: 3 <= l < NUM_LEVELS ==> SplitDb().v[l] == [];
  }

  lemma {:induction false} DeletionIsObsolete(s: SequenceNumber)
    requires s >= DELETION.key.seqno
    ensures Obsolete(MERGED, s, SplitDb().v, 1, 2)
  {
    hide IsBase;
    NothingDeeper();
    forall j: nat
      ensures !Hides(MERGED, s, j, 2)
    {
      assert j == 0 || j == 1 || j >= 2;
    }
  }

  lemma {:induction false} NothingKept(s: SequenceNumber)
    requires s >= DELETION.key.seqno
    ensures var kept := Contents(Kept(MERGED, s, SplitDb().v, 1, 3));
      kept <= Contents(MERGED) && forall e :: e in kept && e.key.user == K ==> !VisibleTo(e, K, s)
  {
    DeletionIsObsolete(s);
    KeptSubset(MERGED, s, SplitDb().v, 1);
    hide Kept, SplitDb;
    forall e | e in Contents(Kept(MERGED, s, SplitDb().v, 1, 3)) && e.key.user == K
      ensures !VisibleTo(e, K, s)
    {
      FirstDecides(MERGED, s, SplitDb().v, 1, 2, e);
    }
  }

  lemma {:induction false} MergedIs()
    ensures Contents(MERGED) == {FIRST, DEEP_FIRST, DELETION}
  {
  }

  lemma {:induction false} SplitUnique()
    ensures UniqueKeys({FIRST, DEEP_FIRST, DELETION} + {DELETED, LAST, DEEP_LAST})
  {
  }

  lemma {:induction false} DeletedIsHidden(s: SequenceNumber, all: set<Entry>)
    requires s >= DELETION.key.seqno && all == {FIRST, DEEP_FIRST, DELETION} + {DELETED, LAST, DEEP_LAST} &&
      UniqueKeys(all)
    ensures Read(all, K, s) == None
  {
    hide Read, UniqueKeys;
    assert Newest(all, K, s, DELETION);
    ReadNewest(all, K, s, DELETION);
  }

  lemma {:induction false} DeletedIsRead(kept: set<Entry>, s: SequenceNumber, rest: set<Entry>)
    requires s >= DELETION.key.seqno && rest == {DELETED, LAST, DEEP_LAST} && UniqueKeys(kept + rest)
    requires forall e :: e in kept && e.key.user == K ==> !VisibleTo(e, K, s)
    ensures Read(kept + rest, K, s) == Some(DELETED.value)
  {
    hide Read, UniqueKeys;
    assert VisibleTo(DELETED, K, s);
    assert Newest(kept + rest, K, s, DELETED);
    ReadNewest(kept + rest, K, s, DELETED);
  }

  lemma {:induction false} FewerUnique(some: set<Entry>, all: set<Entry>)
    requires UniqueKeys(all) && some <= all
    ensures UniqueKeys(some)
  {
  }

  /** Wherever the outputs are cut and whatever snapshot from the deletion on is the oldest: the
      deletion is dropped, and the deleted value is read again. */
  lemma {:induction false} SplitUserKeyResurrects(s: SequenceNumber, parts: seq<seq<Entry>>, first: nat)
    requires s >= DELETION.key.seqno && NonEmpty(parts) && Flatten(parts) == Kept(MERGED, s, SplitDb().v, 1, 3)
    ensures SplitDb().Ordered() && InputsOk(SplitDb().v, 1, [UPPER_PICKED], [LOWER_PICKED])
    ensures Sorted(MERGED) && Contents(MERGED) == EntriesOf([UPPER_PICKED]) + EntriesOf([LOWER_PICKED])
    ensures Read(SplitDb().All(), K, s) == None
    ensures Read(Compacted(SplitDb(), 1, [UPPER_PICKED], [LOWER_PICKED], parts, first).All(), K, s) ==
        Some(DELETED.value)
  {
    hide Db.Ordered, Db.All, InputsOk, Sorted, EntriesOf, Read, Kept, Flatten, OutputFiles, Installed, Rest, SplitDb,
      Contents, VisibleTo;
    var db, in0, in1 := SplitDb(), [UPPER_PICKED], [LOWER_PICKED];
    SplitOrdered();
    SplitInputs();
    MergedInputs();
    EntriesBefore(db, 1, in0, in1);
    EntriesAfter(db, 1, in0, in1, OutputFiles(parts, first));
    OutputEntries(parts, first);
    DeletedIsLeft();
    NothingKept(s);
    var kept, rest := Contents(Kept(MERGED, s, SplitDb().v, 1, 3)), {DELETED, LAST, DEEP_LAST};
    MergedIs();
    SplitUnique();
    FewerUnique(kept + rest, Contents(MERGED) + rest);
    DeletedIsHidden(s, Contents(MERGED) + rest);
    DeletedIsRead(kept, s, rest);
    assert Compacted(db, 1, in0, in1, parts, first) ==
        Db(db.mem, db.imm, Installed(db.v, 1, in0, in1, OutputFiles(parts, first)));
  }
}
