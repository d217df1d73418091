/** Choosing the files of a compaction and installing its outputs. */
module CompactionInputs {
  import opened ByteStrings
  import opened InternalKeys
  import opened Reads
  import opened Files
  import opened Overlap
  import opened Lookup
  import opened Flush

  const EXPANDED_SIZE_LIMIT := 25 * TARGET_FILE_SIZE

  /** The smallest range of internal keys covering the files. */
  ghost predicate IsRange(files: seq<File>, smallest: IKey, largest: IKey) {
    && (forall f :: f in files ==> !Before(f.smallest, smallest) && !Before(largest, f.largest))
    && (exists f :: f in files && f.smallest == smallest)
    && (exists f :: f in files && f.largest == largest)
  }

  method GetRange(files: seq<File>) returns (smallest: IKey, largest: IKey)
    requires files != []
    ensures IsRange(files, smallest, largest)
  {
    hide IsRange, Before, Compare;
    smallest, largest := files[0].smallest, files[0].largest;
    OneFileRange(files[0]);
    assert files[..1] == [files[0]];
    for i := 1 to |files|
      invariant IsRange(files[..i], smallest, largest)
    {
      var f := files[i];
      RangeMore(files[..i], smallest, largest, f);
      assert files[..i + 1] == files[..i] + [f];
      if Compare(f.smallest, smallest) < 0 {
        smallest := f.smallest;
      }
      if Compare(f.largest, largest) > 0 {
        largest := f.largest;
      }
    }
    assert files[..|files|] == files;
  }

  lemma {:induction false} OneFileRange(f: File)
    ensures IsRange([f], f.smallest, f.largest)
  {
    hide Rank;
    assert f in [f];
  }

  lemma {:induction false} RangeMore(files: seq<File>, smallest: IKey, largest: IKey, f: File)
    requires IsRange(files, smallest, largest)
    ensures IsRange(files + [f], if Compare(f.smallest, smallest) < 0 then f.smallest else smallest,
              if Compare(f.largest, largest) > 0 then f.largest else largest)
  {
    hide Before, Compare;
    var g :| g in files && g.smallest == smallest;
    var h :| h in files && h.largest == largest;
    assert g in files + [f] && h in files + [f] && f in files + [f];
    Trichotomy(f.smallest, smallest);
    Trichotomy(f.largest, largest);
    assert !Before(f.smallest, f.smallest) && !Before(f.largest, f.largest) by {
      Trichotomy(f.smallest, f.smallest);
      Trichotomy(f.largest, f.largest);
    }
    forall k | k in files
      ensures Compare(f.smallest, smallest) < 0 ==> !Before(k.smallest, f.smallest)
      ensures Compare(f.largest, largest) > 0 ==> !Before(f.largest, k.largest)
    {
      if Compare(f.smallest, smallest) < 0 {
        AtOrBefore(f.smallest, smallest, k.smallest);
      }
      if Compare(f.largest, largest) > 0 {
        AtOrBefore(k.largest, largest, f.largest);
      }
    }
  }

  ghost predicate Subset(files: seq<File>, all: seq<File>) {
    forall f :: f in files ==> f in all
  }

  /** On level 0 the inputs take along every file they intersect. */
  ghost predicate IntersectClosed(inputs: seq<File>, all: seq<File>) {
    forall f, g :: f in inputs && g in all && Intersect(f, g) ==> g in inputs
  }

  /** What the rest of a compaction relies on: the lower inputs are exactly the files
      that overlap the user-key range of the upper ones. */
  ghost predicate InputsOk(v: Levels, level: nat, in0: seq<File>, in1: seq<File>) {
    && level + 1 < NUM_LEVELS
    && in0 != []
    && Subset(in0, v[level])
    && (level == 0 ==> IntersectClosed(in0, v[0]))
    && exists smallest, largest ::
        IsRange(in0, smallest, largest) && in1 == Select(v[level + 1], Some(smallest.user), Some(largest.user))
  }

  lemma {:induction false} SelectInputs(v: Levels, level: nat, in0: seq<File>, smallest: IKey, largest: IKey)
    requires level + 1 < NUM_LEVELS && in0 != [] && Subset(in0, v[level])
    requires level == 0 ==> IntersectClosed(in0, v[0])
    requires IsRange(in0, smallest, largest)
    ensures InputsOk(v, level, in0, Select(v[level + 1], Some(smallest.user), Some(largest.user)))
  {
  }

  lemma {:induction false} OverlappingAreInputs(files: seq<File>, level: nat, begin: Option<Bytes>,
        end: Option<Bytes>, inputs: seq<File>)
    requires level > 0 ==> inputs == Select(files, begin, end)
    requires level == 0 ==> LeastClosed(files, begin, end, inputs)
    ensures Subset(inputs, files)
    ensures level == 0 ==> IntersectClosed(inputs, files)
  {
    if level > 0 {
      forall f | f in inputs
        ensures f in files
      {
        SelectMember(files, begin, end, f);
      }
    } else {
      forall f, g | f in inputs && g in files && Intersect(f, g)
        ensures g in inputs
      {
        assert g in (set h | h in inputs);
      }
    }
  }

  /** Files inside the searched range are found again. */
  lemma {:induction false} CoveredAreInputs(files: seq<File>, level: nat, in0: seq<File>, in1: seq<File>,
                         start: IKey, limit: IKey, inputs: seq<File>)
    requires (forall f :: f in files ==> f.Ok()) && Subset(in0, files) && IsRange(in0 + in1, start, limit)
    requires level > 0 ==> inputs == Select(files, Some(start.user), Some(limit.user))
    requires level == 0 ==> LeastClosed(files, Some(start.user), Some(limit.user), inputs)
    ensures Subset(in0, inputs)
  {
    forall f | f in in0
      ensures f in inputs
    {
      assert f in in0 + in1;
      RangeOrdered(f);
      SelectMember(files, Some(start.user), Some(limit.user), f);
      assert level == 0 ==> f in (set g | g in inputs);
    }
  }

  /** A wider range overlaps at least the same files. */
  lemma {:induction false} SelectWider(files: seq<File>, b: Bytes, e: Bytes, b': Bytes, e': Bytes)
    requires Rank(b') <= Rank(b) && Rank(e) <= Rank(e')
    ensures |Select(files, Some(b), Some(e))| <= |Select(files, Some(b'), Some(e'))|
    ensures |Select(files, Some(b), Some(e))| == |Select(files, Some(b'), Some(e'))| ==>
      Select(files, Some(b), Some(e)) == Select(files, Some(b'), Some(e'))
  {
    hide Rank;
    if files != [] {
      var n := |files| - 1;
      SelectWider(files[..n], b, e, b', e');
      OverlapsWider(files[n], b, e, b', e');
      hide Overlaps;
    }
  }

  lemma {:induction false} OverlapsWider(f: File, b: Bytes, e: Bytes, b': Bytes, e': Bytes)
    requires Rank(b') <= Rank(b) && Rank(e) <= Rank(e')
    ensures Overlaps(f, Some(b), Some(e)) ==> Overlaps(f, Some(b'), Some(e'))
  {
    hide Rank;
  }

  lemma {:induction false} RangeWider(files: seq<File>, more: seq<File>, s: IKey, l: IKey, s': IKey, l': IKey)
    requires IsRange(files, s, l) && IsRange(more, s', l') && Subset(files, more)
    ensures Rank(s'.user) <= Rank(s.user) && Rank(l.user) <= Rank(l'.user)
  {
    hide Rank;
  }

  /** The lower files that the given upper files overlap. */
  ghost predicate IsOverlapped(v: Levels, level: nat, inputs: seq<File>, in1: seq<File>)
    requires level + 1 < NUM_LEVELS
  {
    exists smallest, largest :: IsRange(inputs, smallest, largest) &&
        in1 == Select(v[level + 1], Some(smallest.user), Some(largest.user))
  }

  /** All files of the level that meet the range of the inputs, if these are more files, the two levels together
      stay below 50 megabytes, and no more files of the next level are met. */
  ghost predicate Expands(v: Levels, level: nat, inputs: seq<File>, in1: seq<File>, more: seq<File>)
    requires level + 1 < NUM_LEVELS
  {
    && |more| > |inputs| && TotalFileSize(in1) + TotalFileSize(more) < 50 * 1048576
    && IsOverlapped(v, level, more, in1)
    && exists start, limit :: IsRange(inputs + in1, start, limit) &&
        if level > 0 then more == Select(v[level], Some(start.user), Some(limit.user))
        else LeastClosed(v[level], Some(start.user), Some(limit.user), more)
  }

  lemma {:induction false} OneRange(files: seq<File>, s: IKey, l: IKey, s': IKey, l': IKey)
    requires IsRange(files, s, l) && IsRange(files, s', l')
    ensures s == s' && l == l'
  {
    hide Before;
    Trichotomy(s, s');
    Trichotomy(l, l');
  }

  /** On a sorted level there is one way to expand. */
  lemma {:induction false} ExpandsOneWay(v: Levels, level: nat, inputs: seq<File>, in1: seq<File>, start: IKey,
        limit: IKey)
    requires 0 < level && level + 1 < NUM_LEVELS && IsRange(inputs + in1, start, limit)
    ensures var all := Select(v[level], Some(start.user), Some(limit.user));
      forall more :: Expands(v, level, inputs, in1, more) <==> more == all && Expands(v, level, inputs, in1, all)
  {
    hide IsRange, IsOverlapped, Select, TotalFileSize;
    var all := Select(v[level], Some(start.user), Some(limit.user));
    forall more | Expands(v, level, inputs, in1, more)
      ensures more == all
    {
      var s, l :| IsRange(inputs + in1, s, l) && more == Select(v[level], Some(s.user), Some(l.user));
      OneRange(inputs + in1, s, l, start, limit);
    }
  }

  lemma {:induction false} OverlappedOnce(v: Levels, level: nat, inputs: seq<File>, in1: seq<File>, s: IKey, l: IKey)
    requires level + 1 < NUM_LEVELS && IsRange(inputs, s, l)
    ensures IsOverlapped(v, level, inputs, in1) <==> in1 == Select(v[level + 1], Some(s.user), Some(l.user))
  {
    hide IsRange, Select;
    if IsOverlapped(v, level, inputs, in1) {
      var s', l' :| IsRange(inputs, s', l') && in1 == Select(v[level + 1], Some(s'.user), Some(l'.user));
      OneRange(inputs, s, l, s', l');
    }
  }

  method SetupOtherInputs(v: Levels, level: nat, inputs: seq<File>) returns (in0: seq<File>, in1: seq<File>)
    requires WellShaped(v) && level + 1 < NUM_LEVELS
    requires inputs != [] && Subset(inputs, v[level])
    requires level == 0 ==> IntersectClosed(inputs, v[0])
    ensures InputsOk(v, level, in0, in1)
    ensures Subset(inputs, in0) && IsOverlapped(v, level, inputs, in1)
    ensures in0 == inputs || (in1 != [] && Expands(v, level, inputs, in1, in0))
    ensures level > 0 && in1 != [] && (exists more :: Expands(v, level, inputs, in1, more)) ==> in0 != inputs
  {
    hide Rank, TotalFileSize, IsRange, LeastClosed, Select;
    in0 := inputs;
    var smallest, largest := GetRange(in0);
    in1 := GetOverlappingInputs(v[level + 1], level + 1, Some(smallest.user), Some(largest.user));
    SelectInputs(v, level, in0, smallest, largest);
    if in1 != [] {
      // See if more files of this level fit without drawing in more of the next.
      var allStart, allLimit := GetRange(in0 + in1);
      var expanded0 := GetOverlappingInputs(v[level], level, Some(allStart.user), Some(allLimit.user));
      OverlappingAreInputs(v[level], level, Some(allStart.user), Some(allLimit.user), expanded0);
      CoveredAreInputs(v[level], level, in0, in1, allStart, allLimit, expanded0);
      if level > 0 {
        ExpandsOneWay(v, level, in0, in1, allStart, allLimit);
      }
      if |expanded0| > |in0| && TotalFileSize(in1) + TotalFileSize(expanded0) < EXPANDED_SIZE_LIMIT {
        var newStart, newLimit := GetRange(expanded0);
        var expanded1 := GetOverlappingInputs(v[level + 1], level + 1, Some(newStart.user), Some(newLimit.user));
        SelectInputs(v, level, expanded0, newStart, newLimit);
        OverlappedOnce(v, level, expanded0, in1, newStart, newLimit);
        RangeWider(in0, expanded0, smallest, largest, newStart, newLimit);
        SelectWider(v[level + 1], smallest.user, largest.user, newStart.user, newLimit.user);
        if |expanded1| == |in1| {
          in0, in1 := expanded0, expanded1;
        }
      }
    }
  }

  function Without(files: seq<File>, drop: seq<File>): seq<File> {
    if files == [] then []
    else (if files[0] in drop then [] else [files[0]]) + Without(files[1..], drop)
  }

  lemma {:induction false} WithoutMember(files: seq<File>, drop: seq<File>, f: File)
    ensures f in Without(files, drop) <==> f in files && f !in drop
  {
    if files != [] {
      WithoutMember(files[1..], drop, f);
      assert files == [files[0]] + files[1..];
    }
  }

  function AddFiles(files: seq<File>, outputs: seq<File>): seq<File> {
    if outputs == [] then files
    else AddFile(AddFiles(files, outputs[..|outputs| - 1]), outputs[|outputs| - 1])
  }

  /** The version after the compaction: inputs gone, outputs one level down. */
  function Installed(v: Levels, level: nat, in0: seq<File>, in1: seq<File>, outputs: seq<File>): Levels
    requires level + 1 < NUM_LEVELS
  {
    v[level := Without(v[level], in0)][level + 1 := AddFiles(Without(v[level + 1], in1), outputs)]
  }

  /** The outputs hold, in order and without gaps, entries that came from the inputs. */
  ghost predicate OutputsOk(in0: seq<File>, in1: seq<File>, outputs: seq<File>) {
    && Disjoint(outputs)
    && forall o, e :: o in outputs && e in o.entries ==> e in EntriesOf(in0) + EntriesOf(in1)
  }

  lemma {:induction false} WithoutDisjoint(files: seq<File>, drop: seq<File>)
    requires Disjoint(files)
    ensures Disjoint(Without(files, drop))
  {
    if files != [] {
      var rest := Without(files[1..], drop);
      forall i, j {:trigger Before(files[1..][i].largest, files[1..][j].smallest)} | 0 <= i < j < |files[1..]|
        ensures Before(files[1..][i].largest, files[1..][j].smallest)
      {
        assert Before(files[i + 1].largest, files[j + 1].smallest);
      }
      WithoutDisjoint(files[1..], drop);
      var r := Without(files, drop);
      if files[0] !in drop {
        forall i, j | 0 <= i < j < |r|
          ensures Before(r[i].largest, r[j].smallest)
        {
          if i == 0 {
            WithoutMember(files[1..], drop, r[j]);
            var k :| 1 <= k < |files| && files[k] == r[j];
            assert Before(files[0].largest, files[k].smallest);
          } else {
            assert Before(rest[i - 1].largest, rest[j - 1].smallest);
          }
        }
      }
    }
  }

  /** A file the compaction leaves in place on the lower level is clear of every output. */
  lemma {:induction false} OutputClearOfRest(v: Levels, level: nat, in0: seq<File>, in1: seq<File>, o: File, g: File)
    requires WellShaped(v) && InputsOk(v, level, in0, in1)
    requires o.Ok() && forall e :: e in o.entries ==> e in EntriesOf(in0) + EntriesOf(in1)
    requires g in v[level + 1] && g !in in1
    ensures Apart(o, g)
  {
    var smallest, largest :| IsRange(in0, smallest, largest) &&
      in1 == Select(v[level + 1], Some(smallest.user), Some(largest.user));
    SelectMember(v[level + 1], Some(smallest.user), Some(largest.user), g);
    RangeOrdered(g);
    forall e | e in o.entries
      ensures ClearOf(e, g, smallest)
    {
      EntryClearOfRest(v, level, in0, in1, smallest, largest, g, e);
    }
    assert o.entries[0] in o.entries && o.entries[|o.entries| - 1] in o.entries;
  }

  ghost predicate ClearOf(e: Entry, g: File, smallest: IKey) {
    if Rank(g.largest.user) < Rank(smallest.user) then Before(g.largest, e.key) else Before(e.key, g.smallest)
  }

  lemma {:induction false} EntryClearOfRest(v: Levels, level: nat, in0: seq<File>, in1: seq<File>,
                         smallest: IKey, largest: IKey, g: File, e: Entry)
    requires WellShaped(v) && level + 1 < NUM_LEVELS && Subset(in0, v[level])
    requires IsRange(in0, smallest, largest)
    requires in1 == Select(v[level + 1], Some(smallest.user), Some(largest.user))
    requires g in v[level + 1] && g !in in1
    requires e in EntriesOf(in0) + EntriesOf(in1)
    ensures ClearOf(e, g, smallest)
  {
    SelectMember(v[level + 1], Some(smallest.user), Some(largest.user), g);
    if e in EntriesOf(in0) {
      var f :| f in in0 && e in f.entries;
      assert f in v[level] && f.Ok();
      InRange(f, e);
    } else {
      var f :| f in in1 && e in f.entries;
      SelectMember(v[level + 1], Some(smallest.user), Some(largest.user), f);
      NeighbourClear(v[level + 1], smallest, largest, f, g, e);
    }
  }

  lemma {:induction false} NeighbourClear(files: seq<File>, smallest: IKey, largest: IKey, f: File, g: File, e: Entry)
    requires Disjoint(files) && f in files && g in files && e in f.entries
    requires Overlaps(f, Some(smallest.user), Some(largest.user))
    requires !Overlaps(g, Some(smallest.user), Some(largest.user))
    ensures ClearOf(e, g, smallest)
  {
    InRange(f, e);
    RangeOrdered(f);
    RangeOrdered(g);
    var i: nat :| i < |files| && files[i] == f;
    var j: nat :| j < |files| && files[j] == g;
    if i < j {
      assert Before(f.largest, g.smallest);
    } else {
      assert Before(g.largest, f.smallest);
    }
  }

  lemma {:induction false} AddFilesMember(files: seq<File>, outputs: seq<File>, g: File)
    ensures g in AddFiles(files, outputs) <==> g in files || g in outputs
  {
    if outputs != [] {
      var n := |outputs| - 1;
      AddFilesMember(files, outputs[..n], g);
      AddFileMember(AddFiles(files, outputs[..n]), outputs[n]);
      assert outputs == outputs[..n] + [outputs[n]];
    }
  }

  lemma {:induction false} FrontDisjoint(outputs: seq<File>)
    requires Disjoint(outputs) && outputs != []
    ensures var n := |outputs| - 1;
      Disjoint(outputs[..n]) && forall g :: g in outputs[..n] ==> Apart(outputs[n], g)
  {
    hide Before;
    var n := |outputs| - 1;
    var front := outputs[..n];
    forall i, j {:trigger Before(front[i].largest, front[j].smallest)} | 0 <= i < j < n
      ensures Before(front[i].largest, front[j].smallest)
    {
      assert Before(outputs[i].largest, outputs[j].smallest);
    }
    forall g | g in front
      ensures Apart(outputs[n], g)
    {
      var i :| 0 <= i < n && outputs[i] == g;
      assert Before(outputs[i].largest, outputs[n].smallest);
    }
  }

  lemma {:induction false} AddFilesDisjoint(files: seq<File>, outputs: seq<File>)
    requires Disjoint(files) && Disjoint(outputs)
    requires forall o, g :: o in outputs && g in files ==> Apart(o, g)
    ensures Disjoint(AddFiles(files, outputs))
  {
    hide Before, AddFile, Apart;
    if outputs != [] {
      var n := |outputs| - 1;
      var front := outputs[..n];
      FrontDisjoint(outputs);
      AddFilesDisjoint(files, front);
      forall g | g in AddFiles(files, front)
        ensures Apart(outputs[n], g)
      {
        AddFilesMember(files, front, g);
      }
      AddFileDisjoint(AddFiles(files, front), outputs[n]);
    }
  }

  /** Installing a compaction leaves every level sorted and disjoint. */
  lemma {:induction false} InstalledShaped(v: Levels, level: nat, in0: seq<File>, in1: seq<File>, outputs: seq<File>)
    requires WellShaped(v) && InputsOk(v, level, in0, in1) && OutputsOk(in0, in1, outputs)
    ensures WellShaped(Installed(v, level, in0, in1, outputs))
  {
    var lower := Without(v[level + 1], in1);
    WithoutDisjoint(v[level + 1], in1);
    forall o, g | o in outputs && g in lower
      ensures Apart(o, g)
    {
      WithoutMember(v[level + 1], in1, g);
      OutputClearOfRest(v, level, in0, in1, o, g);
    }
    AddFilesDisjoint(lower, outputs);
    if level > 0 {
      WithoutDisjoint(v[level], in0);
    } else {
      forall f | f in Without(v[0], in0)
        ensures f.Ok()
      {
        WithoutMember(v[0], in0, f);
      }
    }
  }

  /** Every file of the new version was there before or is an output. */
  lemma {:induction false} InstalledMember(v: Levels, level: nat, in0: seq<File>, in1: seq<File>, outputs: seq<File>,
        l: nat, g: File)
    requires level + 1 < NUM_LEVELS && l < NUM_LEVELS
    ensures g in Installed(v, level, in0, in1, outputs)[l] <==>
      if l == level then g in v[l] && g !in in0
      else if l == level + 1 then (g in v[l] && g !in in1) || g in outputs
      else g in v[l]
  {
    WithoutMember(v[level], in0, g);
    WithoutMember(v[level + 1], in1, g);
    AddFilesMember(Without(v[level + 1], in1), outputs, g);
  }

  lemma {:induction false} InputEntries(v: Levels, level: nat, in0: seq<File>, in1: seq<File>, e: Entry)
    requires InputsOk(v, level, in0, in1) && e in EntriesOf(in0) + EntriesOf(in1)
    ensures e in EntriesOf(v[level]) || e in EntriesOf(v[level + 1])
    ensures e in EntriesOf(in0) || e in EntriesOf(v[level + 1])
  {
    if e !in EntriesOf(in0) {
      var f :| f in in1 && e in f.entries;
      var smallest, largest :| IsRange(in0, smallest, largest) &&
        in1 == Select(v[level + 1], Some(smallest.user), Some(largest.user));
      SelectMember(v[level + 1], Some(smallest.user), Some(largest.user), f);
    }
  }

  lemma {:induction false} InstalledPairOrdered(v: Levels, level: nat, in0: seq<File>, in1: seq<File>,
        outputs: seq<File>,
                             l: nat, d: Entry, e: Entry)
    requires LevelsOrdered(v) && InputsOk(v, level, in0, in1) && OutputsOk(in0, in1, outputs)
    requires NewerThan(EntriesOf(Without(v[level], in0)), EntriesOf(outputs))
    requires l < NUM_LEVELS && d.key.user == e.key.user
    requires d in EntriesAbove(Installed(v, level, in0, in1, outputs), l)
    requires e in EntriesOf(Installed(v, level, in0, in1, outputs)[l])
    ensures Tag(d.key) > Tag(e.key)
  {
    var v' := Installed(v, level, in0, in1, outputs);
    var k, g :| 0 <= k < l && g in v'[k] && d in g.entries;
    var h :| h in v'[l] && e in h.entries;
    InstalledMember(v, level, in0, in1, outputs, k, g);
    InstalledMember(v, level, in0, in1, outputs, l, h);
    assert NewerThan(EntriesAbove(v, l), EntriesOf(v[l]));
    if h in v[l] {
      assert d in EntriesAbove(v, l) by {
        if g !in v[k] {
          InputEntries(v, level, in0, in1, d);
        }
      }
    } else {
      InputEntries(v, level, in0, in1, e);
      assert g in v[k];
      if k == level {
        assert d in EntriesOf(Without(v[level], in0)) by {
          WithoutMember(v[level], in0, g);
        }
        assert e in EntriesOf(outputs);
      } else {
        assert NewerThan(EntriesAbove(v, level), EntriesOf(v[level]));
        assert d in EntriesAbove(v, level) && d in EntriesAbove(v, l);
      }
    }
  }

  lemma {:induction false} InstalledOrdered(v: Levels, level: nat, in0: seq<File>, in1: seq<File>, outputs: seq<File>)
    requires LevelsOrdered(v) && InputsOk(v, level, in0, in1) && OutputsOk(in0, in1, outputs)
    requires NewerThan(EntriesOf(Without(v[level], in0)), EntriesOf(outputs))
    ensures LevelsOrdered(Installed(v, level, in0, in1, outputs))
  {
    var v' := Installed(v, level, in0, in1, outputs);
    forall l | 0 <= l < NUM_LEVELS
      ensures NewerThan(EntriesAbove(v', l), EntriesOf(v'[l]))
    {
      forall d, e | d in EntriesAbove(v', l) && e in EntriesOf(v'[l]) && d.key.user == e.key.user
        ensures Tag(d.key) > Tag(e.key)
      {
        InstalledPairOrdered(v, level, in0, in1, outputs, l, d, e);
      }
    }
    forall f
      ensures f in v'[0] ==> f in v[0]
    {
      InstalledMember(v, level, in0, in1, outputs, 0, f);
    }
  }

  /** Shallower data stays newer exactly when the files left behind on the upper level
      hold nothing older than what moved down past them. */
  lemma {:induction false} InstalledOrderedIff(v: Levels, level: nat, in0: seq<File>, in1: seq<File>,
        outputs: seq<File>)
    requires LevelsOrdered(v) && InputsOk(v, level, in0, in1) && OutputsOk(in0, in1, outputs)
    ensures LevelsOrdered(Installed(v, level, in0, in1, outputs)) <==>
      NewerThan(EntriesOf(Without(v[level], in0)), EntriesOf(outputs))
  {
    var v' := Installed(v, level, in0, in1, outputs);
    var left := EntriesOf(Without(v[level], in0));
    if NewerThan(left, EntriesOf(outputs)) {
      InstalledOrdered(v, level, in0, in1, outputs);
    }
    forall e | e in EntriesOf(outputs)
      ensures e in EntriesOf(v'[level + 1])
    {
      var o :| o in outputs && e in o.entries;
      InstalledMember(v, level, in0, in1, outputs, level + 1, o);
    }
    assert v'[level] == Without(v[level], in0);
    assert forall d :: d in left ==> d in EntriesAbove(v', level + 1);
    assert LevelsOrdered(v') ==> NewerThan(EntriesAbove(v', level + 1), EntriesOf(v'[level + 1]));
  }

  /** File `g` goes on with older entries of the last user key of `f`. */
  ghost predicate Continues(f: File, g: File) {
    g.smallest.user == f.largest.user && Before(f.largest, g.smallest)
  }

  /** Some file that stays goes on with a user key of which one that leaves takes an entry down. */
  ghost predicate BorderSplit(files: seq<File>, in0: seq<File>, moved: set<Entry>) {
    exists f, g, e :: f in in0 && g in files && g !in in0 && SplitAt(f, g, e) && e in moved
  }

  ghost predicate SplitAt(f: File, g: File, e: Entry) {
    Continues(f, g) && e in f.entries && e.key.user == f.largest.user
  }

  lemma {:induction false} SplitBreaks(f: File, g: File, e: Entry)
    requires f.Ok() && g.Ok() && SplitAt(f, g, e)
    ensures g.entries != [] && var d := g.entries[0]; d.key.user == e.key.user && Tag(d.key) < Tag(e.key)
  {
    InRange(f, e);
  }

  /** Entries of one user key in two files of a sorted level: the earlier file has the newer one, and
      the later file goes on where it ends. */
  lemma {:induction false} SharedUser(files: seq<File>, f: File, g: File, e: Entry, d: Entry)
    requires Disjoint(files) && f in files && g in files && f != g
    requires e in f.entries && d in g.entries && e.key.user == d.key.user
    ensures Tag(d.key) > Tag(e.key) || SplitAt(f, g, e)
  {
    InRange(f, e);
    InRange(g, d);
    var i: nat :| i < |files| && files[i] == f;
    var j: nat :| j < |files| && files[j] == g;
    if i < j {
      assert Before(f.largest, g.smallest);
    } else {
      assert Before(g.largest, f.smallest);
    }
  }

  /** Below level 0 the order of levels is kept exactly when no file that stays on the level goes on
      with a user key of which an input takes an entry down. */
  lemma {:induction false} InstalledOrderedBorder(v: Levels, level: nat, in0: seq<File>, in1: seq<File>,
        outputs: seq<File>)
    requires WellShaped(v) && LevelsOrdered(v) && 0 < level && InputsOk(v, level, in0, in1) &&
      OutputsOk(in0, in1, outputs)
    ensures LevelsOrdered(Installed(v, level, in0, in1, outputs)) <==> !BorderSplit(v[level], in0, EntriesOf(outputs))
  {
    InstalledOrderedIff(v, level, in0, in1, outputs);
    var left, moved := EntriesOf(Without(v[level], in0)), EntriesOf(outputs);
    hide WellShaped, LevelsOrdered, Installed, OutputsOk, EntriesOf, Without;
    if BorderSplit(v[level], in0, moved) {
      SplitNotNewer(v, level, in0, in1, moved);
    } else {
      hide BorderSplit;
      forall d, e | d in left && e in moved && d.key.user == e.key.user
        ensures Tag(d.key) > Tag(e.key)
      {
        NewerUnlessSplit(v, level, in0, in1, outputs, d, e);
      }
    }
  }

  lemma {:induction false} SplitNotNewer(v: Levels, level: nat, in0: seq<File>, in1: seq<File>, moved: set<Entry>)
    requires WellShaped(v) && 0 < level && InputsOk(v, level, in0, in1) && BorderSplit(v[level], in0, moved)
    ensures !NewerThan(EntriesOf(Without(v[level], in0)), moved)
  {
    LevelFiles(v, level);
    InputsOfLevel(v, level, in0, in1);
    hide Disjoint, File.Ok, SplitAt, WellShaped, InputsOk, EntriesOf, Without;
    var f, g, e :| f in in0 && g in v[level] && g !in in0 && SplitAt(f, g, e) && e in moved;
    SplitBreaks(f, g, e);
    WithoutMember(v[level], in0, g);
    EntryIsIn(Without(v[level], in0), g, g.entries[0]);
  }

  lemma {:induction false} InputsOfLevel(v: Levels, level: nat, in0: seq<File>, in1: seq<File>)
    requires InputsOk(v, level, in0, in1)
    ensures level + 1 < NUM_LEVELS && forall f :: f in in0 ==> f in v[level]
  {
  }

  lemma {:induction false} EntryIsIn(files: seq<File>, g: File, d: Entry)
    requires g in files && d in g.entries
    ensures d in EntriesOf(files)
  {
  }

  lemma {:induction false} LevelFiles(v: Levels, level: nat)
    requires WellShaped(v) && 0 < level < NUM_LEVELS
    ensures Disjoint(v[level]) && forall f :: f in v[level] ==> f.Ok()
  {
    hide File.Ok;
  }

  lemma {:induction false} NewerUnlessSplit(v: Levels, level: nat, in0: seq<File>, in1: seq<File>, outputs: seq<File>,
        d: Entry, e: Entry)
    requires WellShaped(v) && LevelsOrdered(v) && 0 < level && InputsOk(v, level, in0, in1) &&
      OutputsOk(in0, in1, outputs)
    requires d in EntriesOf(Without(v[level], in0)) && e in EntriesOf(outputs) && d.key.user == e.key.user
    requires !BorderSplit(v[level], in0, EntriesOf(outputs))
    ensures Tag(d.key) > Tag(e.key)
  {
    hide Rank, Before, Disjoint, SplitAt;
    var g :| g in Without(v[level], in0) && d in g.entries;
    WithoutMember(v[level], in0, g);
    if e in EntriesOf(in0) {
      var f :| f in in0 && e in f.entries;
      LevelFiles(v, level);
      SharedUser(v[level], f, g, e, d);
    } else {
      InputEntries(v, level, in0, in1, e);
      assert NewerThan(EntriesAbove(v, level + 1), EntriesOf(v[level + 1]));
      assert d in EntriesAbove(v, level + 1);
    }
  }

  /** A single file moved down: nothing but a file that goes on with its last user key is in the way. */
  lemma {:induction false} MoveKeepsOrderIff(v: Levels, level: nat, f: File)
    requires WellShaped(v) && LevelsOrdered(v) && 0 < level && InputsOk(v, level, [f], [])
    ensures LevelsOrdered(Installed(v, level, [f], [], [f])) <==> forall g :: g in v[level] ==> !Continues(f, g)
  {
    hide Rank, LevelsOrdered, Installed, InputsOk;
    assert f in [f];
    LevelMember(v, level, f);
    FileMoves(f);
    InstalledOrderedBorder(v, level, [f], [], [f]);
    var last := f.entries[|f.entries| - 1];
    assert !Continues(f, f) by {
      RangeOrdered(f);
    }
    forall g | g in v[level] && Continues(f, g)
      ensures BorderSplit(v[level], [f], EntriesOf([f]))
    {
      assert SplitAt(f, g, last) && last in EntriesOf([f]);
    }
  }

  lemma {:induction false} LevelMember(v: Levels, level: nat, f: File)
    requires WellShaped(v) && 0 < level && InputsOk(v, level, [f], [])
    ensures f.Ok() && level + 1 < NUM_LEVELS
  {
    assert f in [f];
  }

  lemma {:induction false} FileMoves(f: File)
    requires f.Ok()
    ensures OutputsOk([f], [], [f])
  {
  }

  /** A compaction out of level 0 takes every file it intersects, so it keeps the order. */
  lemma {:induction false} Level0KeepsOrder(v: Levels, in0: seq<File>, in1: seq<File>, outputs: seq<File>)
    requires WellShaped(v) && LevelsOrdered(v) && InputsOk(v, 0, in0, in1) && OutputsOk(in0, in1, outputs)
    ensures LevelsOrdered(Installed(v, 0, in0, in1, outputs))
  {
    forall d, e | d in EntriesOf(Without(v[0], in0)) && e in EntriesOf(outputs) && d.key.user == e.key.user
      ensures Tag(d.key) > Tag(e.key)
    {
      Level0Pair(v, in0, in1, d, e);
    }
    InstalledOrdered(v, 0, in0, in1, outputs);
  }

  lemma {:induction false} Level0Pair(v: Levels, in0: seq<File>, in1: seq<File>, d: Entry, e: Entry)
    requires WellShaped(v) && LevelsOrdered(v) && InputsOk(v, 0, in0, in1)
    requires d in EntriesOf(Without(v[0], in0)) && e in EntriesOf(in0) + EntriesOf(in1) && d.key.user == e.key.user
    ensures Tag(d.key) > Tag(e.key)
  {
    hide Rank, InputsOk, Disjoint, WellShaped, EntriesAbove;
    var g :| g in Without(v[0], in0) && d in g.entries;
    WithoutMember(v[0], in0, g);
    NotInInputs(v, in0, in1, g, d, e);
    InputEntries(v, 0, in0, in1, e);
    assert NewerThan(EntriesAbove(v, 1), EntriesOf(v[1]));
    Level0Above(v, g, d);
  }

  lemma {:induction false} Level0Above(v: Levels, g: File, d: Entry)
    requires g in v[0] && d in g.entries
    ensures d in EntriesAbove(v, 1)
  {
  }

  /** A level-0 file left out shares no user key with the files taken. */
  lemma {:induction false} NotInInputs(v: Levels, in0: seq<File>, in1: seq<File>, g: File, d: Entry, e: Entry)
    requires WellShaped(v) && InputsOk(v, 0, in0, in1) && g in v[0] && g !in in0 && d in g.entries &&
      d.key.user == e.key.user
    ensures e !in EntriesOf(in0)
  {
    hide Rank, Disjoint, EntriesAbove, Sorted;
    InRange(g, d);
    forall f | f in in0
      ensures e !in f.entries
    {
      assert f in v[0];
      assert !Intersect(f, g);
      if e in f.entries {
        InRange(f, e);
      }
    }
  }
}
