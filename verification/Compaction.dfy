/** What a compaction may drop, and when dropping it changes no read. */
module Compaction {
  import opened ByteStrings
  import opened InternalKeys
  import opened Cursors
  import opened Reads
  import opened Files

  /** No file more than one level below `level` has `user` in its range. */
  ghost predicate IsBase(v: Levels, level: nat, user: Bytes) {
    forall l, f :: level + 2 <= l < NUM_LEVELS && f in v[l] ==> !f.Spans(user)
  }

  /** Entry `j` is a newer version of entry `i`, itself no newer than `s`. */
  ghost predicate Hides(es: seq<Entry>, s: SequenceNumber, j: nat, i: nat) {
    j < i < |es| && es[j].key.user == es[i].key.user && es[j].key.seqno <= s
  }

  ghost predicate Shadowed(es: seq<Entry>, s: SequenceNumber, i: nat) {
    exists j :: Hides(es, s, j, i)
  }

  /** The first entry of its user key at or below `s` is a deletion with nothing below. */
  ghost predicate Obsolete(es: seq<Entry>, s: SequenceNumber, v: Levels, level: nat, i: nat) {
    && i < |es|
    && !Shadowed(es, s, i)
    && es[i].key.kind == Deletion
    && es[i].key.seqno <= s
    && IsBase(v, level, es[i].key.user)
  }

  /** Only the entry just before can be the last sequence seen for the user key. */
  lemma {:induction false} ShadowedByPrevious(es: seq<Entry>, s: SequenceNumber, i: nat)
    requires Sorted(es) && i < |es|
    ensures Shadowed(es, s, i) <==> i > 0 && es[i - 1].key.user == es[i].key.user && es[i - 1].key.seqno <= s
    ensures i > 0 ==> Rank(es[i - 1].key.user) <= Rank(es[i].key.user)
  {
    if i > 0 {
      assert Before(es[i - 1].key, es[i].key);
      assert Hides(es, s, i - 1, i) <==> es[i - 1].key.user == es[i].key.user && es[i - 1].key.seqno <= s;
      if j: nat :| Hides(es, s, j, i) {
        assert Hides(es, s, j, i);
        assert j < i - 1 ==> Before(es[j].key, es[i - 1].key);
      }
    }
  }

  /** What the compaction keeps of the first `n` entries. */
  ghost function Kept(es: seq<Entry>, s: SequenceNumber, v: Levels, level: nat, n: nat): seq<Entry>
    requires n <= |es|
  {
    if n == 0 then []
    else
      Kept(es, s, v, level, n - 1) +
      if Shadowed(es, s, n - 1) || Obsolete(es, s, v, level, n - 1) then [] else [es[n - 1]]
  }

  lemma {:induction false} KeptMember(es: seq<Entry>, s: SequenceNumber, v: Levels, level: nat, n: nat, e: Entry)
    requires n <= |es|
    ensures e in Kept(es, s, v, level, n) <==>
      exists i: nat :: i < n && es[i] == e && !Shadowed(es, s, i) && !Obsolete(es, s, v, level, i)
  {
    if n > 0 {
      KeptMember(es, s, v, level, n - 1, e);
    }
  }

  /** A newer version of the entry that snapshot `s` can see already. */
  ghost predicate Supersedes(d: Entry, e: Entry, s: SequenceNumber) {
    d.key.user == e.key.user && d.key.seqno <= s && Tag(d.key) > Tag(e.key)
  }

  /** Some file two levels down or deeper has the user key in its range. */
  ghost predicate FoundDeeper(v: Levels, level: nat, user: Bytes) {
    exists l, f :: level + 2 <= l < NUM_LEVELS && f in v[l] &&
      Rank(f.smallest.user) <= Rank(user) <= Rank(f.largest.user)
  }

  lemma {:induction false} BaseIff(v: Levels, level: nat, user: Bytes)
    ensures IsBase(v, level, user) <==> !FoundDeeper(v, level, user)
  {
    hide Rank;
    if !IsBase(v, level, user) {
      var l, f :| level + 2 <= l < NUM_LEVELS && f in v[l] && f.Spans(user);
      assert FoundDeeper(v, level, user);
    }
    if FoundDeeper(v, level, user) {
      var l, f :| level + 2 <= l < NUM_LEVELS && f in v[l] && Rank(f.smallest.user) <= Rank(user) <= Rank(f.largest.user);
      assert f.Spans(user);
    }
  }

  /** Kept are just the entries that no snapshot in use can do without: those that are not superseded and are
      no deletion, or a recent one, or one of a key that is found deeper. */
  lemma {:induction false} KeptExactly(es: seq<Entry>, s: SequenceNumber, v: Levels, level: nat, e: Entry)
    requires Sorted(es)
    ensures e in Kept(es, s, v, level, |es|) <==>
      && e in es && (forall d :: d in es ==> !Supersedes(d, e, s))
      && (e.key.kind.Value? || e.key.seqno > s || FoundDeeper(v, level, e.key.user))
  {
    hide Rank, Kept, IsBase, FoundDeeper;
    KeptMember(es, s, v, level, |es|, e);
    BaseIff(v, level, e.key.user);
    forall i: nat | i < |es| && es[i] == e
      ensures Shadowed(es, s, i) <==> exists d :: d in es && Supersedes(d, e, s)
    {
      if j: nat :| Hides(es, s, j, i) {
        assert Hides(es, s, j, i) && Before(es[j].key, es[i].key);
        assert es[j] in es && Supersedes(es[j], e, s);
      }
      if d :| d in es && Supersedes(d, e, s) {
        var j: nat :| j < |es| && es[j] == d;
        assert i < j ==> Before(es[i].key, es[j].key);
        assert Hides(es, s, j, i);
      }
    }
  }

  /** Every read at snapshot `s` or later gives the same answer with `kept` in place of `es`. */
  ghost predicate Preserves(es: seq<Entry>, kept: seq<Entry>, rest: set<Entry>, s: SequenceNumber) {
    forall user: Bytes, t: SequenceNumber {:trigger Read(Contents(es) + rest, user, t)} :: t >= s ==>
      Read(Contents(es) + rest, user, t) == Read(Contents(kept) + rest, user, t)
  }

  /** Outside the compaction, the newest entry of `d`'s user key is a value older than `d`. */
  ghost predicate Uncovers(rest: set<Entry>, s: SequenceNumber, d: Entry) {
    exists v :: Newest(rest, d.key.user, s, v) && v.key.kind == Value && Tag(v.key) < Tag(d.key)
  }

  /** Some deletion dropped as obsolete uncovers a value in `rest`. */
  ghost predicate SomeUncovered(es: seq<Entry>, s: SequenceNumber, v: Levels, level: nat, rest: set<Entry>) {
    exists i: nat :: i < |es| && Obsolete(es, s, v, level, i) && Uncovers(rest, s, es[i])
  }

  /** A compaction changes no read it may not change, exactly when no deletion it
      drops as obsolete uncovers a value in the files left out of it. */
  lemma {:induction false} PreservesIff(es: seq<Entry>, s: SequenceNumber, v: Levels, level: nat, rest: set<Entry>)
    requires Sorted(es) && UniqueKeys(Contents(es) + rest)
    ensures Preserves(es, Kept(es, s, v, level, |es|), rest, s) <==> !SomeUncovered(es, s, v, level, rest)
  {
    var kept := Kept(es, s, v, level, |es|);
    if i: nat :| i < |es| && Obsolete(es, s, v, level, i) && Uncovers(rest, s, es[i]) {
      UncoveredIsRead(es, s, v, level, rest, i);
      assert Read(Contents(es) + rest, es[i].key.user, s) != Read(Contents(kept) + rest, es[i].key.user, s);
    } else {
      forall user: Bytes, t: SequenceNumber | t >= s
        ensures Read(Contents(es) + rest, user, t) == Read(Contents(kept) + rest, user, t)
      {
        SameRead(es, s, v, level, rest, user, t);
      }
    }
  }

  lemma {:induction false} KeptSubset(es: seq<Entry>, s: SequenceNumber, v: Levels, level: nat)
    ensures Contents(Kept(es, s, v, level, |es|)) <= Contents(es)
  {
    forall e | e in Kept(es, s, v, level, |es|)
      ensures e in es
    {
      KeptMember(es, s, v, level, |es|, e);
    }
  }

  /** Of the entries at or below `s` only the first of a user key can be kept. */
  lemma {:induction false} FirstDecides(es: seq<Entry>, s: SequenceNumber, v: Levels, level: nat, i: nat, e: Entry)
    requires i < |es| && es[i].key.seqno <= s && !Shadowed(es, s, i)
    requires e in Kept(es, s, v, level, |es|) && e.key.user == es[i].key.user
    ensures e.key.seqno > s || (e == es[i] && !Obsolete(es, s, v, level, i))
  {
    KeptMember(es, s, v, level, |es|, e);
    var k: nat :| k < |es| && es[k] == e && !Shadowed(es, s, k) && !Obsolete(es, s, v, level, k);
    assert !Hides(es, s, k, i) && !Hides(es, s, i, k);
  }

  lemma {:induction false} UncoveredIsRead(es: seq<Entry>, s: SequenceNumber, v: Levels, level: nat, rest: set<Entry>,
        i: nat)
    requires Sorted(es) && UniqueKeys(Contents(es) + rest)
    requires Obsolete(es, s, v, level, i) && Uncovers(rest, s, es[i])
    ensures Read(Contents(es) + rest, es[i].key.user, s) == None
    ensures Read(Contents(Kept(es, s, v, level, |es|)) + rest, es[i].key.user, s) != None
  {
    var d, user, kept := es[i], es[i].key.user, Contents(Kept(es, s, v, level, |es|));
    var w: Entry :| Newest(rest, user, s, w) && w.key.kind == Value && Tag(w.key) < Tag(d.key);
    assert Newest(rest, user, s, w);
    KeptSubset(es, s, v, level);
    forall e | e in Contents(es) && VisibleTo(e, user, s)
      ensures Tag(e.key) <= Tag(d.key)
    {
      var j: nat :| j < |es| && es[j] == e;
      assert !Hides(es, s, j, i);
      assert i < j ==> Before(es[i].key, es[j].key);
    }
    forall e | e in kept && e.key.user == user
      ensures !VisibleTo(e, user, s)
    {
      FirstDecides(es, s, v, level, i, e);
    }
    ReadNewest(Contents(es) + rest, user, s, d);
    ReadNewest(kept + rest, user, s, w);
  }

  /** A dropped entry that was the newest visible one is an obsolete deletion. */
  lemma {:induction false} DroppedNewest(es: seq<Entry>, s: SequenceNumber, v: Levels, level: nat, user: Bytes,
        t: SequenceNumber, i: nat)
    requires Sorted(es) && t >= s && i < |es|
    requires Newest(Contents(es), user, t, es[i]) && es[i] !in Kept(es, s, v, level, |es|)
    ensures Obsolete(es, s, v, level, i)
  {
    KeptMember(es, s, v, level, |es|, es[i]);
    forall j: nat
      ensures !Hides(es, s, j, i)
    {
      if j < i {
        assert Before(es[j].key, es[i].key);
        assert es[j] in Contents(es);
      }
    }
  }

  lemma {:induction false} SameRead(es: seq<Entry>, s: SequenceNumber, v: Levels, level: nat, rest: set<Entry>,
        user: Bytes, t: SequenceNumber)
    requires Sorted(es) && UniqueKeys(Contents(es) + rest) && t >= s
    requires !SomeUncovered(es, s, v, level, rest)
    ensures Read(Contents(es) + rest, user, t) == Read(Contents(Kept(es, s, v, level, |es|)) + rest, user, t)
  {
    var kept := Contents(Kept(es, s, v, level, |es|));
    var all, left := Contents(es) + rest, kept + rest;
    KeptSubset(es, s, v, level);
    if e :| Newest(all, user, t, e) {
      assert Newest(all, user, t, e);
      ReadNewest(all, user, t, e);
      if e in left {
        assert Newest(left, user, t, e);
        ReadNewest(left, user, t, e);
      } else {
        var i: nat :| i < |es| && es[i] == e;
        assert Newest(Contents(es), user, t, e);
        DroppedNewest(es, s, v, level, user, t, i);
        if f :| Newest(left, user, t, f) {
          NothingOlder(es, s, v, level, rest, i, t, f);
          ReadNewest(left, user, t, f);
        }
      }
    } else if f :| f in left && VisibleTo(f, user, t) {
      NewestExists(all, user, t, f);
    }
  }

  lemma {:induction false} NothingOlder(es: seq<Entry>, s: SequenceNumber, v: Levels, level: nat, rest: set<Entry>,
        i: nat, t: SequenceNumber, f: Entry)
    requires Sorted(es) && UniqueKeys(Contents(es) + rest) && t >= s
    requires Obsolete(es, s, v, level, i) && !Uncovers(rest, s, es[i])
    requires Newest(Contents(es) + rest, es[i].key.user, t, es[i])
    requires es[i] !in Contents(Kept(es, s, v, level, |es|)) + rest
    requires Newest(Contents(Kept(es, s, v, level, |es|)) + rest, es[i].key.user, t, f)
    ensures Outcome(f) == None
  {
    var user, kept := es[i].key.user, Kept(es, s, v, level, |es|);
    KeptSubset(es, s, v, level);
    assert f in Contents(es) + rest && VisibleTo(f, user, t);
    assert Tag(f.key) <= Tag(es[i].key);
    assert f in rest by {
      if f in kept {
        FirstDecides(es, s, v, level, i, f);
      }
    }
    TagInjective(f.key, es[i].key);
    forall g | g in rest && VisibleTo(g, user, s)
      ensures Tag(g.key) <= Tag(f.key)
    {
      assert g in Contents(kept) + rest && VisibleTo(g, user, t);
    }
    assert Newest(rest, user, s, f);
  }

  lemma {:induction false} TagInjective(a: IKey, b: IKey)
    ensures a.user == b.user && Tag(a) == Tag(b) ==> a == b
  {
  }

  ghost predicate UserIn(es: set<Entry>, user: Bytes) {
    exists e :: e in es && e.key.user == user
  }

  /** The compaction takes in every version of its user keys at its two levels. */
  ghost predicate ClosedUnderUser(es: seq<Entry>, siblings: set<Entry>) {
    forall e :: e in es ==> !UserIn(siblings, e.key.user)
  }

  ghost predicate HeldBelow(v: Levels, level: nat, es: set<Entry>) {
    forall e :: e in es ==> exists l, f :: level + 2 <= l < NUM_LEVELS && f in v[l] && e in f.entries
  }

  lemma {:induction false} BaseExcludes(v: Levels, level: nat, user: Bytes, deeper: set<Entry>)
    requires WellShaped(v) && IsBase(v, level, user) && HeldBelow(v, level, deeper)
    ensures forall w :: w in deeper ==> w.key.user != user
  {
    forall w | w in deeper
      ensures w.key.user != user
    {
      var l, f :| level + 2 <= l < NUM_LEVELS && f in v[l] && w in f.entries;
      InRange(f, w);
    }
  }

  /** With inputs closed under user key, no read changes: what is shallower is newer,
      and the base-level test rules out anything deeper. */
  lemma {:induction false} ClosedInputsPreserve(es: seq<Entry>, s: SequenceNumber, v: Levels, level: nat,
                             shallower: set<Entry>, siblings: set<Entry>, deeper: set<Entry>)
    requires Sorted(es) && UniqueKeys(Contents(es) + (shallower + siblings + deeper))
    requires WellShaped(v) && HeldBelow(v, level, deeper)
    requires forall d, e :: d in shallower && e in es && d.key.user == e.key.user ==> Tag(d.key) > Tag(e.key)
    requires ClosedUnderUser(es, siblings)
    ensures Preserves(es, Kept(es, s, v, level, |es|), shallower + siblings + deeper, s)
  {
    var rest := shallower + siblings + deeper;
    forall i | 0 <= i < |es| && Obsolete(es, s, v, level, i)
      ensures !Uncovers(rest, s, es[i])
    {
      BaseExcludes(v, level, es[i].key.user, deeper);
      forall w | w in rest && w.key.user == es[i].key.user
        ensures Tag(w.key) > Tag(es[i].key)
      {
        assert w !in siblings by {
          assert !UserIn(siblings, es[i].key.user);
        }
      }
    }
    PreservesIff(es, s, v, level, rest);
  }

  predicate NonEmpty(parts: seq<seq<Entry>>) {
    forall i :: 0 <= i < |parts| ==> parts[i] != []
  }

  ghost function Flatten(parts: seq<seq<Entry>>): seq<Entry> {
    if parts == [] then [] else Flatten(parts[..|parts| - 1]) + parts[|parts| - 1]
  }

  class CompactionRun {
    const version: Levels
    const level: nat
    const smallestSnapshot: SequenceNumber
    /** Per level, how many files the base-level test has gone past. */
    const levelPtrs: array<nat>
    /** Files finished so far, and the one being built, if any. */
    var outputs: seq<seq<Entry>>
    var building: bool
    var builder: seq<Entry>

    ghost predicate Valid()
      reads this
    {
      && level + 1 < NUM_LEVELS
      && WellShaped(version)
      && levelPtrs.Length == NUM_LEVELS
      && (!building ==> builder == [])
      && (building ==> builder != [])
      && NonEmpty(outputs)
    }

    /** Every file the level pointers have passed lies before `user`. */
    ghost predicate Passed(user: Bytes)
      requires levelPtrs.Length == NUM_LEVELS
      reads levelPtrs
    {
      forall l :: level + 2 <= l < NUM_LEVELS ==>
        levelPtrs[l] <= |version[l]| &&
        forall i :: 0 <= i < levelPtrs[l] ==> Rank(version[l][i].largest.user) < Rank(user)
    }

    ghost predicate PtrsAtStart()
      reads levelPtrs
    {
      levelPtrs.Length == NUM_LEVELS && forall l :: 0 <= l < NUM_LEVELS ==> levelPtrs[l] == 0
    }

    /** Keys come in order, so files once passed stay passed. */
    lemma {:induction false} KeepsPassing(user: Bytes, later: Bytes)
      requires levelPtrs.Length == NUM_LEVELS
      requires PtrsAtStart() || (Passed(user) && Rank(user) <= Rank(later))
      ensures Passed(later)
    {
    }

    ghost function Written(): seq<Entry>
      reads this
    {
      Flatten(outputs) + builder
    }

    constructor (version: Levels, level: nat, smallestSnapshot: SequenceNumber)
      requires WellShaped(version) && level + 1 < NUM_LEVELS
      ensures Valid() && fresh(levelPtrs) && Written() == []
      ensures this.version == version && this.level == level && this.smallestSnapshot == smallestSnapshot
      ensures PtrsAtStart()
    {
      this.version, this.level, this.smallestSnapshot := version, level, smallestSnapshot;
      levelPtrs := new nat[NUM_LEVELS](_ => 0);
      outputs, building, builder := [], false, [];
    }

    /** Forward-only pointers give the same answer as a full scan. */
    method IsBaseLevelForKey(user: Bytes) returns (base: bool)
      requires Valid() && Passed(user)
      modifies levelPtrs
      ensures Passed(user)
      ensures base <==> IsBase(version, level, user)
    {
      for lvl := level + 2 to NUM_LEVELS
        invariant Passed(user)
        invariant forall l, f :: level + 2 <= l < lvl && f in version[l] ==> !f.Spans(user)
      {
        var files := version[lvl];
        while levelPtrs[lvl] < |files|
          invariant Passed(user)
          decreases |files| - levelPtrs[lvl]
        {
          var f := files[levelPtrs[lvl]];
          if CompareBytes(user, f.largest.user) <= 0 {
            if CompareBytes(user, f.smallest.user) >= 0 {
              assert f.Spans(user);
              return false;
            }
            break;
          }
          levelPtrs[lvl] := levelPtrs[lvl] + 1;
        }
        NotSpanned(files, levelPtrs[lvl], user);
      }
      return true;
    }

    lemma {:induction false} NotSpanned(files: seq<File>, p: nat, user: Bytes)
      requires Disjoint(files) && p <= |files|
      requires forall i :: 0 <= i < p ==> Rank(files[i].largest.user) < Rank(user)
      requires p < |files| ==> Rank(user) < Rank(files[p].smallest.user)
      ensures forall f :: f in files ==> !f.Spans(user)
    {
      forall i | 0 <= i < |files|
        ensures !files[i].Spans(user)
      {
        if p < i {
          RangeOrdered(files[p]);
          assert Before(files[p].largest, files[i].smallest);
        }
      }
    }

    method FinishOutput()
      requires Valid() && building
      modifies this
      ensures Valid() && !building && Written() == old(Written())
    {
      outputs, building, builder := outputs + [builder], false, [];
      assert outputs[..|outputs| - 1] == old(outputs);
    }

    method MaybeStopBefore()
      requires Valid()
      modifies this
      ensures Valid() && Written() == old(Written())
    {
      var stopBefore: bool := *;
      if stopBefore && building {
        FinishOutput();
      }
    }

    method AddToOutput(e: Entry)
      requires Valid()
      modifies this
      ensures Valid() && Written() == old(Written()) + [e]
    {
      building, builder := true, builder + [e];
      var bigEnough: bool := *;
      if bigEnough {
        FinishOutput();
      }
    }

    method DropRule(key: IKey, lastSequence: nat, ghost es: seq<Entry>, ghost i: nat) returns (drop: bool)
      requires Valid() && Passed(key.user)
      requires i < |es| && es[i].key == key
      requires lastSequence <= smallestSnapshot <==> Shadowed(es, smallestSnapshot, i)
      modifies levelPtrs
      ensures Passed(key.user)
      ensures drop <==> Shadowed(es, smallestSnapshot, i) || Obsolete(es, smallestSnapshot, version, level, i)
    {
      drop := false;
      if lastSequence <= smallestSnapshot {
        drop := true;
      } else if key.kind == Deletion && key.seqno <= smallestSnapshot {
        drop := IsBaseLevelForKey(key.user);
      }
    }

    /** Walks the merged input and writes what survives. Where output files are cut
        depends on sizes alone; any cut is allowed here. */
    method DoCompactionWork(input: EntryIterator)
      requires Valid() && Written() == [] && !building
      requires PtrsAtStart()
      requires input.Valid() && Sorted(input.items)
      requires smallestSnapshot < MAX_SEQUENCE
      modifies this, input, levelPtrs
      ensures Valid() && !building
      ensures Flatten(outputs) == Kept(input.items, smallestSnapshot, version, level, |input.items|)
    {
      hide Rank;
      ghost var es := input.items;
      input.SeekToFirst();
      var currentUser, hasCurrentUser, lastSequence: SequenceNumber := [], false, MAX_SEQUENCE;
      while input.HasCurrent()
        invariant Valid() && input.Valid()
        invariant Written() == Kept(es, smallestSnapshot, version, level, input.pos)
        invariant hasCurrentUser <==> input.pos > 0
        invariant input.pos > 0 ==> currentUser == es[input.pos - 1].key.user && lastSequence == es[input.pos - 1].key.seqno
        invariant if input.pos == 0 then PtrsAtStart() else Passed(es[input.pos - 1].key.user)
        decreases |es| - input.pos
      {
        var key := input.Key();
        MaybeStopBefore();
        ShadowedByPrevious(es, smallestSnapshot, input.pos);
        KeepsPassing(if input.pos == 0 then key.user else es[input.pos - 1].key.user, key.user);
        if !hasCurrentUser || CompareBytes(key.user, currentUser) != 0 {
          // First occurrence of this user key.
          currentUser, hasCurrentUser, lastSequence := key.user, true, MAX_SEQUENCE;
        }
        var drop := DropRule(key, lastSequence, es, input.pos);
        lastSequence := key.seqno;
        if !drop {
          AddToOutput(input.items[input.pos]);
        }
        input.Next();
      }
      if building {
        FinishOutput();
      }
    }
  }
}
