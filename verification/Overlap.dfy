/** Finding the files of a level that overlap a user-key range. */
module Overlap {
  import opened ByteStrings
  import opened Reads
  import opened Files

  /** `key` lies after the file; no key is after nothing. */
  predicate AfterFile(key: Option<Bytes>, f: File) {
    key.Some? && CompareBytes(key.value, f.largest.user) > 0
  }

  predicate BeforeFile(key: Option<Bytes>, f: File) {
    key.Some? && CompareBytes(key.value, f.smallest.user) < 0
  }

  /** The file overlaps the range; a missing end is unbounded. */
  predicate Overlaps(f: File, begin: Option<Bytes>, end: Option<Bytes>) {
    !AfterFile(begin, f) && !BeforeFile(end, f)
  }

  /** A file overlaps a range exactly if they are not apart: it does not end before the range begins, nor begin
      after the range ends. */
  lemma {:induction false} OverlapsIff(f: File, begin: Option<Bytes>, end: Option<Bytes>)
    ensures Overlaps(f, begin, end) <==>
      && (begin.Some? ==> Rank(begin.value) <= Rank(f.largest.user))
      && (end.Some? ==> Rank(f.smallest.user) <= Rank(end.value))
  {
    hide Rank;
    if begin.Some? {
      assert CompareBytes(begin.value, f.largest.user) > 0 <==> Rank(begin.value) > Rank(f.largest.user);
    }
    if end.Some? {
      assert CompareBytes(end.value, f.smallest.user) < 0 <==> Rank(end.value) < Rank(f.smallest.user);
    }
  }

  function Select(files: seq<File>, begin: Option<Bytes>, end: Option<Bytes>): seq<File> {
    if files == [] then []
    else
      var last := files[|files| - 1];
      Select(files[..|files| - 1], begin, end) + if Overlaps(last, begin, end) then [last] else []
  }

  lemma {:induction false} SelectStep(files: seq<File>, i: nat, begin: Option<Bytes>, end: Option<Bytes>)
    requires i < |files|
    ensures Select(files[..i + 1], begin, end) ==
      Select(files[..i], begin, end) + if Overlaps(files[i], begin, end) then [files[i]] else []
  {
    assert files[..i + 1][..i] == files[..i];
  }

  lemma {:induction false} SelectMember(files: seq<File>, begin: Option<Bytes>, end: Option<Bytes>, f: File)
    ensures f in Select(files, begin, end) <==> f in files && Overlaps(f, begin, end)
  {
    if files != [] {
      var n := |files| - 1;
      SelectMember(files[..n], begin, end, f);
      assert files == files[..n] + [files[n]];
    }
  }

  ghost predicate Intersect(f: File, g: File) {
    exists user :: f.Spans(user) && g.Spans(user)
  }

  /** `t` holds every file overlapping the range and, with a file, all that intersect it. */
  ghost predicate OverlapClosed(files: seq<File>, t: set<File>, begin: Option<Bytes>, end: Option<Bytes>) {
    && (forall f :: f in files && Overlaps(f, begin, end) ==> f in t)
    && (forall f, g {:trigger Intersect(f, g)} :: f in files && g in files && f in t && Intersect(f, g) ==> g in t)
  }

  ghost predicate Within(begin: Option<Bytes>, end: Option<Bytes>, user: Bytes) {
    (begin.Some? ==> Rank(begin.value) <= Rank(user)) && (end.Some? ==> Rank(user) <= Rank(end.value))
  }

  /** The file does not stick out of the range. */
  ghost predicate Inside(f: File, begin: Option<Bytes>, end: Option<Bytes>) {
    (begin.Some? ==> Rank(begin.value) <= Rank(f.smallest.user)) &&
        (end.Some? ==> Rank(f.largest.user) <= Rank(end.value))
  }

  ghost predicate InSomeFile(files: seq<File>, t: set<File>, user: Bytes) {
    exists f :: f in files && f in t && f.Spans(user)
  }

  /** How the search range (`b`, `e`) grows out of the one asked for: it only widens,
      and every key it gained lies in a file of every overlap-closed set. */
  ghost predicate Grown(files: seq<File>, begin: Option<Bytes>, end: Option<Bytes>, b: Option<Bytes>,
        e: Option<Bytes>) {
    && (begin.Some? <==> b.Some?) && (end.Some? <==> e.Some?)
    && (b.Some? ==> Rank(b.value) <= Rank(begin.value))
    && (e.Some? ==> Rank(end.value) <= Rank(e.value))
    && (b != begin || e != end ==> b.Some? && e.Some? ==> Rank(b.value) <= Rank(e.value))
    && forall t, user {:trigger InSomeFile(files, t, user)} ::
        OverlapClosed(files, t, begin, end) && Within(b, e, user) && !Within(begin, end, user) ==>
            InSomeFile(files, t, user)
  }

  /** A file overlapping a grown range belongs to every overlap-closed set. */
  lemma {:induction false} GrownCatchesOnlyNeeded(files: seq<File>, begin: Option<Bytes>, end: Option<Bytes>,
                               b: Option<Bytes>, e: Option<Bytes>, t: set<File>, g: File)
    requires Grown(files, begin, end, b, e) && OverlapClosed(files, t, begin, end)
    requires g in files && g.Ok() && Overlaps(g, b, e)
    ensures g in t
  {
    RangeOrdered(g);
    if !Overlaps(g, begin, end) {
      var user :=
        if AfterFile(begin, g) then
          (if e.Some? && Rank(e.value) < Rank(g.largest.user) then e.value else g.largest.user)
        else (if b.Some? && Rank(b.value) > Rank(g.smallest.user) then b.value else g.smallest.user);
      assert Within(b, e, user) && !Within(begin, end, user) && g.Spans(user);
      assert InSomeFile(files, t, user);
      var f :| f in files && f in t && f.Spans(user);
      assert Intersect(f, g);
    }
  }

  /** Files that stick out of the range below (above) it: what is left to widen for. */
  function StickingOut(files: seq<File>, b: Option<Bytes>, e: Option<Bytes>): nat {
    if files == [] then 0
    else
      var f := files[|files| - 1];
      StickingOut(files[..|files| - 1], b, e)
      + (if b.Some? && CompareBytes(f.smallest.user, b.value) < 0 then 1 else 0)
      + (if e.Some? && CompareBytes(f.largest.user, e.value) > 0 then 1 else 0)
  }

  lemma {:induction false} WideningDecreases(files: seq<File>, b: Option<Bytes>, e: Option<Bytes>, b': Option<Bytes>,
        e': Option<Bytes>)
    requires b.Some? == b'.Some? && e.Some? == e'.Some?
    requires b.Some? ==> Rank(b'.value) <= Rank(b.value)
    requires e.Some? ==> Rank(e.value) <= Rank(e'.value)
    ensures StickingOut(files, b', e') <= StickingOut(files, b, e)
    ensures (exists f :: f in files && b.Some? && Rank(b'.value) == Rank(f.smallest.user) < Rank(b.value)) ==>
      StickingOut(files, b', e') < StickingOut(files, b, e)
    ensures (exists f :: f in files && e.Some? && Rank(e.value) < Rank(f.largest.user) == Rank(e'.value)) ==>
      StickingOut(files, b', e') < StickingOut(files, b, e)
  {
    if files != [] {
      var n := |files| - 1;
      WideningDecreases(files[..n], b, e, b', e');
      assert files == files[..n] + [files[n]];
    }
  }

  lemma {:induction false} GrowDown(files: seq<File>, begin: Option<Bytes>, end: Option<Bytes>, b: Option<Bytes>,
        e: Option<Bytes>, g: File)
    requires Grown(files, begin, end, b, e)
    requires g in files && g.Ok() && Overlaps(g, b, e)
    requires b.Some? && Rank(g.smallest.user) < Rank(b.value)
    ensures Grown(files, begin, end, Some(g.smallest.user), e)
    ensures StickingOut(files, Some(g.smallest.user), e) < StickingOut(files, b, e)
  {
    var b' := Some(g.smallest.user);
    WideningDecreases(files, b, e, b', e);
    forall t, user | OverlapClosed(files, t, begin, end) && Within(b', e, user) && !Within(begin, end, user)
      ensures InSomeFile(files, t, user)
    {
      if !Within(b, e, user) {
        GrownCatchesOnlyNeeded(files, begin, end, b, e, t, g);
        assert g.Spans(user);
      }
    }
  }

  lemma {:induction false} GrowUp(files: seq<File>, begin: Option<Bytes>, end: Option<Bytes>, b: Option<Bytes>,
        e: Option<Bytes>, g: File)
    requires Grown(files, begin, end, b, e)
    requires g in files && g.Ok() && Overlaps(g, b, e)
    requires b.Some? ==> Rank(b.value) <= Rank(g.smallest.user)
    requires e.Some? && Rank(e.value) < Rank(g.largest.user)
    ensures Grown(files, begin, end, b, Some(g.largest.user))
    ensures StickingOut(files, b, Some(g.largest.user)) < StickingOut(files, b, e)
  {
    RangeOrdered(g);
    var e' := Some(g.largest.user);
    WideningDecreases(files, b, e, b, e');
    forall t, user | OverlapClosed(files, t, begin, end) && Within(b, e', user) && !Within(begin, end, user)
      ensures InSomeFile(files, t, user)
    {
      if !Within(b, e, user) {
        GrownCatchesOnlyNeeded(files, begin, end, b, e, t, g);
        assert g.Spans(user);
      }
    }
  }

  /** What the search over level 0 delivers for a range. */
  ghost predicate LeastClosed(files: seq<File>, begin: Option<Bytes>, end: Option<Bytes>, inputs: seq<File>) {
    && (forall f :: f in inputs ==> f in files)
    && OverlapClosed(files, (set f | f in inputs), begin, end)
    && forall t, f :: OverlapClosed(files, t, begin, end) && f in inputs ==> f in t
  }

  method GetOverlappingInputs(files: seq<File>, level: nat, begin: Option<Bytes>, end: Option<Bytes>)
    returns (inputs: seq<File>)
    requires forall f :: f in files ==> f.Ok()
    ensures level > 0 ==> inputs == Select(files, begin, end)
    ensures level == 0 ==> LeastClosed(files, begin, end, inputs)
  {
    inputs := [];
    var userBegin, userEnd := begin, end;
    var i := 0;
    while i < |files|
      invariant i <= |files|
      invariant Grown(files, begin, end, userBegin, userEnd)
      invariant level > 0 ==> userBegin == begin && userEnd == end
      invariant inputs == Select(files[..i], userBegin, userEnd)
      invariant level == 0 ==> forall f :: f in inputs ==>
        Inside(f, userBegin, userEnd)
      decreases StickingOut(files, userBegin, userEnd), |files| - i
    {
      var f := files[i];
      SelectStep(files, i, userBegin, userEnd);
      i := i + 1;
      if AfterFile(userBegin, f) {
        // The file is completely before the range.
      } else if BeforeFile(userEnd, f) {
        // The file is completely after the range.
      } else {
        inputs := inputs + [f];
        if level == 0 {
          // A file that sticks out widens the range, and the search starts over.
          if userBegin.Some? && CompareBytes(f.smallest.user, userBegin.value) < 0 {
            GrowDown(files, begin, end, userBegin, userEnd, f);
            userBegin, inputs, i := Some(f.smallest.user), [], 0;
          } else if userEnd.Some? && CompareBytes(f.largest.user, userEnd.value) > 0 {
            GrowUp(files, begin, end, userBegin, userEnd, f);
            userEnd, inputs, i := Some(f.largest.user), [], 0;
          }
        }
      }
    }
    assert files[..|files|] == files;
    if level == 0 {
      GrownIsLeast(files, begin, end, userBegin, userEnd, inputs);
    }
  }

  lemma {:induction false} GrownIsLeast(files: seq<File>, begin: Option<Bytes>, end: Option<Bytes>,
                     b: Option<Bytes>, e: Option<Bytes>, inputs: seq<File>)
    requires forall f :: f in files ==> f.Ok()
    requires Grown(files, begin, end, b, e) && inputs == Select(files, b, e)
    requires forall f :: f in inputs ==> Inside(f, b, e)
    ensures LeastClosed(files, begin, end, inputs)
  {
    forall f
      ensures f in inputs <==> f in files && Overlaps(f, b, e)
    {
      SelectMember(files, b, e, f);
    }
    forall f, g | f in files && g in files && f in inputs && Intersect(f, g)
      ensures Overlaps(g, b, e)
    {
      var user :| f.Spans(user) && g.Spans(user);
    }
    forall t, f | OverlapClosed(files, t, begin, end) && f in inputs
      ensures f in t
    {
      GrownCatchesOnlyNeeded(files, begin, end, b, e, t, f);
    }
    assert forall f :: Overlaps(f, begin, end) ==> Overlaps(f, b, e);
  }
}
