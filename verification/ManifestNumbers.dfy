/** When a manifest can be recovered from, and the numbers that it gives. */
module ManifestNumbers {
  import opened ByteStrings
  import opened InternalKeys
  import opened Reads
  import opened VersionEdit
  import opened Manifest
  import Log
  import LogReader

  /** The last number given, if there is any. */
  ghost predicate IsLast(given: seq<Option<nat>>, r: Option<nat>) {
    && ((forall i :: 0 <= i < |given| ==> given[i].None?) ==> r.None?)
    && forall i :: 0 <= i < |given| && given[i].Some? && (forall j :: i < j < |given| ==> given[j].None?) ==> r == given[i]
  }

  lemma {:induction false} LastMore(given: seq<Option<nat>>, r: Option<nat>, o: Option<nat>)
    requires IsLast(given, r)
    ensures IsLast(given + [o], if o.Some? then o else r)
  {
    var more := given + [o];
    assert more[|given|] == o;
    if o.None? {
      assert (forall i :: 0 <= i < |more| ==> more[i].None?) ==> forall i :: 0 <= i < |given| ==> given[i] == more[i];
      forall i | 0 <= i < |more| && more[i].Some? && forall j :: i < j < |more| ==> more[j].None?
        ensures r == more[i]
      {
        assert more[i] == given[i] && forall j :: i < j < |given| ==> given[j] == more[j];
      }
    }
  }

  /** Once a number was given it is not lost. */
  lemma {:induction false} LastThere(given: seq<Option<nat>>, r: Option<nat>)
    requires IsLast(given, r)
    ensures r.Some? <==> exists i :: 0 <= i < |given| && given[i].Some?
  {
    if i :| 0 <= i < |given| && given[i].Some? {
      LastAfter(given, r, i);
    }
  }

  lemma {:induction false} LastAfter(given: seq<Option<nat>>, r: Option<nat>, i: nat)
    requires IsLast(given, r) && i < |given| && given[i].Some?
    ensures r.Some?
    decreases |given| - i
  {
    if j :| i < j < |given| && given[j].Some? {
      LastAfter(given, r, j);
    }
  }

  function LogNumbers(edits: seq<Edit>): (r: seq<Option<nat>>)
    ensures |r| == |edits|
  {
    seq(|edits|, i requires 0 <= i < |edits| => edits[i].logNumber)
  }

  function PrevLogNumbers(edits: seq<Edit>): (r: seq<Option<nat>>)
    ensures |r| == |edits|
  {
    seq(|edits|, i requires 0 <= i < |edits| => edits[i].prevLogNumber)
  }

  function NextFiles(edits: seq<Edit>): (r: seq<Option<nat>>)
    ensures |r| == |edits|
  {
    seq(|edits|, i requires 0 <= i < |edits| => edits[i].nextFile)
  }

  function LastSequences(edits: seq<Edit>): (r: seq<Option<nat>>)
    ensures |r| == |edits|
  {
    seq(|edits|, i requires 0 <= i < |edits| => edits[i].lastSequence)
  }

  lemma {:induction false} NumbersMore(edits: seq<Edit>)
    requires edits != []
    ensures var n := |edits| - 1;
      && LogNumbers(edits) == LogNumbers(edits[..n]) + [edits[n].logNumber]
      && PrevLogNumbers(edits) == PrevLogNumbers(edits[..n]) + [edits[n].prevLogNumber]
      && NextFiles(edits) == NextFiles(edits[..n]) + [edits[n].nextFile]
      && LastSequences(edits) == LastSequences(edits[..n]) + [edits[n].lastSequence]
  {
  }

  lemma {:induction false} ReplayMore(edits: seq<Edit>)
    requires EditsOk(edits) && edits != []
    ensures EditsOk(edits[..|edits| - 1])
    ensures var n := |edits| - 1;
      var r, r', e := ReplayAll(edits[..n]), ReplayAll(edits), edits[n];
      && r'.logNumber == (if e.logNumber.Some? then e.logNumber else r.logNumber)
      && r'.prevLogNumber == (if e.prevLogNumber.Some? then e.prevLogNumber else r.prevLogNumber)
      && r'.nextFile == (if e.nextFile.Some? then e.nextFile else r.nextFile)
      && r'.lastSequence == (if e.lastSequence.Some? then e.lastSequence else r.lastSequence)
  {
    hide EditOk;
  }

  lemma {:induction false} ReplayNumbers(edits: seq<Edit>)
    requires EditsOk(edits)
    ensures var r := ReplayAll(edits);
      && IsLast(LogNumbers(edits), r.logNumber) && IsLast(PrevLogNumbers(edits), r.prevLogNumber)
      && IsLast(NextFiles(edits), r.nextFile) && IsLast(LastSequences(edits), r.lastSequence)
  {
    if edits != [] {
      hide *;
      var n := |edits| - 1;
      var before, e := edits[..n], edits[n];
      ReplayMore(edits);
      NumbersMore(edits);
      ReplayNumbers(before);
      var r := ReplayAll(before);
      LastMore(LogNumbers(before), r.logNumber, e.logNumber);
      LastMore(PrevLogNumbers(before), r.prevLogNumber, e.prevLogNumber);
      LastMore(NextFiles(before), r.nextFile, e.nextFile);
      LastMore(LastSequences(before), r.lastSequence, e.lastSequence);
    }
  }

  /** No edit names a comparator other than this one. */
  predicate NamesNoOther(edits: seq<Edit>, name: Bytes) {
    forall e :: e in edits && e.comparator.Some? ==> e.comparator.value == name
  }

  lemma {:induction false} RecoversOrNot(file: Bytes, at: nat, name: Bytes, edits: seq<Edit>, r: Replay)
    requires EditsOk(edits) && at <= |file| && |r.levels| == NUM_LEVELS
    requires LogReader.ReadAll(file, at) == LogReader.Contents(Records(edits), [])
    ensures RecoverFrom(file, at, name, r).Some? <==> NamesNoOther(edits, name)
    decreases |edits|
  {
    hide LogReader.ReadLogical, ReplayEdit, Decode, Record, EditFits, LevelsInRange;
    var l := LogReader.ReadLogical(file, at, None);
    if edits == [] {
      assert l.NoMore?;
    } else {
      assert l.Got?;
      var e, rest := edits[0], edits[1..];
      assert edits == [e] + rest && e in edits;
      assert l.record == Records(edits)[0] == Record(e);
      assert Records(edits)[1..] == Records(rest);
      RecordDecodes(e);
      RecoversOrNot(file, l.next, name, rest, ReplayEdit(r, e));
    }
  }

  lemma {:induction false} NothingReplayed()
    ensures ReplayAll([]) == Nothing()
  {
  }

  /** A manifest is recovered from exactly if no edit names another comparator, and a log number, a next file
      number and a last sequence number are given somewhere; what counts is the last of each. */
  lemma {:induction false} RecoversIff(edits: seq<Edit>, name: Bytes)
    requires EditsOk(edits)
    ensures var o := StateIn(Log.LogOf(0, Records(edits)), name);
      && (o.Some? <==>
          && NamesNoOther(edits, name)
          && (exists i :: 0 <= i < |edits| && edits[i].logNumber.Some?)
          && (exists i :: 0 <= i < |edits| && edits[i].nextFile.Some?)
          && (exists i :: 0 <= i < |edits| && edits[i].lastSequence.Some?))
      && (o.Some? ==>
          && IsLast(LogNumbers(edits), Some(o.value.logNumber)) && IsLast(NextFiles(edits), Some(o.value.nextFile))
          && IsLast(LastSequences(edits), Some(o.value.lastSequence))
          && (IsLast(PrevLogNumbers(edits), Some(o.value.prevLogNumber))
              || (IsLast(PrevLogNumbers(edits), None) && o.value.prevLogNumber == 0)))
  {
    hide IsLast, RecoverFrom, ReplayAll, Record, Log.LogOf, LogReader.ReadAll, SavedLevels;
    var file := Log.LogOf(0, Records(edits));
    LogReader.WholeLog(Records(edits));
    RecoversOrNot(file, 0, name, edits, Nothing());
    ReplayNumbers(edits);
    var r := ReplayAll(edits);
    LastThere(LogNumbers(edits), r.logNumber);
    LastThere(NextFiles(edits), r.nextFile);
    LastThere(LastSequences(edits), r.lastSequence);
    assert forall i :: 0 <= i < |edits| ==> LogNumbers(edits)[i] == edits[i].logNumber;
    assert forall i :: 0 <= i < |edits| ==> NextFiles(edits)[i] == edits[i].nextFile;
    assert forall i :: 0 <= i < |edits| ==> LastSequences(edits)[i] == edits[i].lastSequence;
    if NamesNoOther(edits, name) {
      assert AllComparable(edits, name);
      assert edits[0..] == edits && edits[..0] == [];
      NothingReplayed();
      RecoversAll(file, 0, name, edits, 0);
    }
  }
}
