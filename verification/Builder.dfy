/** Applying many edits to a version at once. */
module Builder {
  import opened ByteStrings
  import opened InternalKeys
  import opened Format
  import opened VersionEdit
  import Files

  /** Smallest key first, ties broken by number. */
  predicate Less(f: Meta, g: Meta) {
    var r := CompareEncoded(f.smallest, g.smallest);
    r < 0 || (r == 0 && f.number < g.number)
  }

  lemma {:induction false} LessFacts(f: Meta, g: Meta, h: Meta)
    ensures !(Less(f, g) && Less(g, f))
    ensures Less(f, g) && Less(g, h) ==> Less(f, h)
    ensures Less(f, g) && !Less(h, g) ==> Less(f, h)
    ensures f.number != g.number ==> Less(f, g) || Less(g, f)
  {
    hide UserPart, TagPart;
  }

  ghost predicate Ordered(files: seq<Meta>) {
    forall i, j :: 0 <= i < j < |files| ==> Less(files[i], files[j])
  }

  /** The files of the set, in order, each once. */
  ghost predicate Lists(files: seq<Meta>, all: set<Meta>) {
    Ordered(files) && forall f :: f in files <==> f in all
  }

  /** There is one way to list a set of files. */
  lemma {:induction false} ListingUnique(a: seq<Meta>, b: seq<Meta>, all: set<Meta>)
    requires Lists(a, all) && Lists(b, all)
    ensures a == b
    decreases |a|
  {
    hide Less;
    if a == [] {
      NothingListed(b, all);
    } else {
      assert a[0] in all && a[0] in b;
      var k :| 0 <= k < |b| && b[k] == a[0];
      assert b[0] in all && b[0] in a;
      var l :| 0 <= l < |a| && a[l] == b[0];
      LessFacts(a[0], b[0], a[0]);
      assert k == 0;
      TailLists(a, all);
      TailLists(b, all);
      ListingUnique(a[1..], b[1..], all - {a[0]});
    }
  }

  lemma {:induction false} NothingListed(files: seq<Meta>, all: set<Meta>)
    requires Lists(files, all)
    ensures all == {} ==> files == []
  {
    assert files != [] ==> files[0] in files;
  }

  lemma {:induction false} TailLists(a: seq<Meta>, all: set<Meta>)
    requires Lists(a, all) && a != []
    ensures Lists(a[1..], all - {a[0]})
  {
    hide Less;
    LessFacts(a[0], a[0], a[0]);
    assert a == [a[0]] + a[1..];
    forall f | f in a[1..]
      ensures f != a[0]
    {
      var k :| 0 <= k < |a[1..]| && a[1..][k] == f;
      assert Less(a[0], a[k + 1]);
    }
  }

  // ----- one level of the builder

  /** What the edits so far say of a level: numbers deleted, and files added, in order. */
  datatype LevelState = LevelState(deleted: set<nat>, added: seq<Meta>)

  const UNCHANGED := LevelState({}, [])

  /** Insertion into an ordered set; an equivalent element stays. */
  function Insert(files: seq<Meta>, f: Meta): seq<Meta> {
    if files == [] then [f]
    else if Less(files[0], f) then [files[0]] + Insert(files[1..], f)
    else if Less(f, files[0]) then [f] + files
    else files
  }

  function AddTo(s: LevelState, f: Meta): LevelState {
    LevelState(s.deleted - {f.number}, Insert(s.added, f))
  }

  function AddsAt(added: seq<(nat, Meta)>, level: nat): seq<Meta> {
    if added == [] then []
    else AddsAt(added[..|added| - 1], level) + (var p := added[|added| - 1]; if p.0 == level then [p.1] else [])
  }

  function AddAll(s: LevelState, files: seq<Meta>): LevelState {
    if files == [] then s else AddTo(AddAll(s, files[..|files| - 1]), files[|files| - 1])
  }

  ghost function DeletesAt(deleted: seq<(nat, nat)>, level: nat): set<nat> {
    set p | p in deleted && p.0 == level :: p.1
  }

  /** Deletions first, then additions. */
  ghost function ApplyAt(s: LevelState, level: nat, e: Edit): LevelState {
    AddAll(s.(deleted := s.deleted + DeletesAt(e.deleted, level)), AddsAt(e.added, level))
  }

  function Merge(base: seq<Meta>, added: seq<Meta>): seq<Meta>
    decreases |base| + |added|
  {
    if added == [] then base
    else if base == [] then added
    else if Less(added[0], base[0]) then [added[0]] + Merge(base, added[1..])
    else [base[0]] + Merge(base[1..], added)
  }

  function Keep(files: seq<Meta>, deleted: set<nat>): seq<Meta> {
    if files == [] then [] else (if files[0].number in deleted then [] else [files[0]]) + Keep(files[1..], deleted)
  }

  function Saved(base: seq<Meta>, s: LevelState): seq<Meta> {
    Keep(Merge(base, s.added), s.deleted)
  }

  /** The first position from `i` on whose file comes after the given one. */
  function UpperBound(base: seq<Meta>, i: nat, f: Meta): (r: nat)
    requires i <= |base|
    ensures i <= r <= |base|
    ensures forall k :: i <= k < r ==> !Less(f, base[k])
    ensures r < |base| ==> Less(f, base[r])
    decreases |base| - i
  {
    if i == |base| || Less(f, base[i]) then i else UpperBound(base, i + 1, f)
  }

  function Pointed(pointers: seq<Bytes>, ps: seq<(nat, Bytes)>): (r: seq<Bytes>)
    requires |pointers| == NUM_LEVELS && forall p :: p in ps ==> p.0 < NUM_LEVELS
    ensures |r| == NUM_LEVELS
  {
    if ps == [] then pointers
    else
      var p := ps[|ps| - 1];
      Pointed(pointers, ps[..|ps| - 1])[p.0 := p.1]
  }

  class Builder {
    const base: seq<seq<Meta>>
    var levels: seq<LevelState>

    ghost predicate Valid()
      reads this
    {
      |base| == |levels| == NUM_LEVELS
    }

    constructor (base: seq<seq<Meta>>)
      requires |base| == NUM_LEVELS
      ensures Valid() && this.base == base && levels == seq(NUM_LEVELS, _ => UNCHANGED)
    {
      this.base, levels := base, seq(NUM_LEVELS, _ => UNCHANGED);
    }

    method Apply(e: Edit, pointers0: seq<Bytes>) returns (pointers: seq<Bytes>)
      requires Valid() && LevelsInRange(e) && |pointers0| == NUM_LEVELS
      modifies this
      ensures Valid() && pointers == Pointed(pointers0, e.compactPointers)
      ensures forall l :: 0 <= l < NUM_LEVELS ==> levels[l] == ApplyAt(old(levels[l]), l, e)
    {
      hide AddTo;
      pointers := pointers0;
      for i := 0 to |e.compactPointers|
        invariant pointers == Pointed(pointers0, e.compactPointers[..i])
      {
        var p := e.compactPointers[i];
        assert e.compactPointers[..i + 1][..i] == e.compactPointers[..i];
        pointers := pointers[p.0 := p.1];
      }
      assert e.compactPointers[..|e.compactPointers|] == e.compactPointers;
      for i := 0 to |e.deleted|
        invariant Valid()
        invariant forall l :: 0 <= l < NUM_LEVELS ==>
          levels[l] == old(levels[l]).(deleted := old(levels[l]).deleted + DeletesAt(e.deleted[..i], l))
      {
        var p := e.deleted[i];
        DeletesMore(e.deleted, i);
        levels := levels[p.0 := levels[p.0].(deleted := levels[p.0].deleted + {p.1})];
      }
      assert e.deleted[..|e.deleted|] == e.deleted;
      ghost var middle := levels;
      assert forall l: nat :: AddsAt(e.added[..0], l) == [];
      hide AddsAt, AddAll, DeletesAt;
      for i := 0 to |e.added|
        invariant Valid()
        invariant forall l :: 0 <= l < NUM_LEVELS ==> levels[l] == AddAll(middle[l], AddsAt(e.added[..i], l))
      {
        var p := e.added[i];
        AddsMore(middle, e.added, i);
        levels := levels[p.0 := AddTo(levels[p.0], p.1)];
      }
      assert e.added[..|e.added|] == e.added;
    }

    method SaveTo() returns (v: seq<seq<Meta>>)
      requires Valid()
      ensures |v| == NUM_LEVELS && forall l :: 0 <= l < NUM_LEVELS ==> v[l] == Saved(base[l], levels[l])
    {
      v := [];
      for level := 0 to NUM_LEVELS
        invariant |v| == level && forall l :: 0 <= l < level ==> v[l] == Saved(base[l], levels[l])
      {
        var files := SaveLevel(level);
        v := v + [files];
      }
    }

    /** The added files, each after the files of the base that come before it. */
    method SaveLevel(level: nat) returns (files: seq<Meta>)
      requires Valid() && level < NUM_LEVELS
      ensures files == Saved(base[level], levels[level])
    {
      hide Less;
      var baseFiles, added, deleted := base[level], levels[level].added, levels[level].deleted;
      files := [];
      var b := 0;
      assert baseFiles[0..] == baseFiles && added[0..] == added;
      hide Merge, Keep;
      for a := 0 to |added|
        invariant b <= |baseFiles|
        invariant files + Keep(Merge(baseFiles[b..], added[a..]), deleted) == Saved(baseFiles, levels[level])
      {
        var bpos := UpperBound(baseFiles, b, added[a]);
        while b != bpos
          invariant b <= bpos
          invariant files + Keep(Merge(baseFiles[b..], added[a..]), deleted) == Saved(baseFiles, levels[level])
          decreases bpos - b
        {
          MergeBase(baseFiles, b, added[a..]);
          files := MaybeAddFile(files, deleted, baseFiles[b], Merge(baseFiles[b + 1..], added[a..]));
          b := b + 1;
        }
        MergeAdded(baseFiles[b..], added[a..]);
        assert added[a..][1..] == added[a + 1..];
        files := MaybeAddFile(files, deleted, added[a], Merge(baseFiles[b..], added[a + 1..]));
      }
      MergeNone(baseFiles[b..], added[|added|..]);
      while b != |baseFiles|
        invariant b <= |baseFiles|
        invariant files + Keep(baseFiles[b..], deleted) == Saved(baseFiles, levels[level])
        decreases |baseFiles| - b
      {
        files := MaybeAddFile(files, deleted, baseFiles[b], baseFiles[b + 1..]);
        assert baseFiles[b..] == [baseFiles[b]] + baseFiles[b + 1..];
        b := b + 1;
      }
      KeepNone(baseFiles[b..], deleted);
    }

    method MaybeAddFile(files0: seq<Meta>, deleted: set<nat>, f: Meta, ghost rest: seq<Meta>) returns (files: seq<Meta>)
      ensures files == files0 + Keep([f], deleted)
      ensures files + Keep(rest, deleted) == files0 + Keep([f] + rest, deleted)
    {
      assert ([f] + rest)[1..] == rest;
      if f.number in deleted {
        files := files0;
      } else {
        files := files0 + [f];
      }
    }
  }

  lemma {:induction false} DeletesMore(deleted: seq<(nat, nat)>, i: nat)
    requires i < |deleted|
    ensures forall l: nat :: DeletesAt(deleted[..i + 1], l) == DeletesAt(deleted[..i], l) + (if deleted[i].0 == l then {deleted[i].1} else {})
  {
    assert deleted[..i + 1] == deleted[..i] + [deleted[i]];
  }

  lemma {:induction false} AddsMore(states: seq<LevelState>, added: seq<(nat, Meta)>, i: nat)
    requires i < |added|
    ensures forall l :: 0 <= l < |states| && added[i].0 == l ==>
      AddAll(states[l], AddsAt(added[..i + 1], l)) == AddTo(AddAll(states[l], AddsAt(added[..i], l)), added[i].1)
    ensures forall l :: 0 <= l < |states| && added[i].0 != l ==>
      AddAll(states[l], AddsAt(added[..i + 1], l)) == AddAll(states[l], AddsAt(added[..i], l))
  {
    hide *;
    forall l | 0 <= l < |states|
      ensures added[i].0 == l ==> AddAll(states[l], AddsAt(added[..i + 1], l)) == AddTo(AddAll(states[l], AddsAt(added[..i], l)), added[i].1)
      ensures added[i].0 != l ==> AddAll(states[l], AddsAt(added[..i + 1], l)) == AddAll(states[l], AddsAt(added[..i], l))
    {
      AddsMoreAt(states[l], added, i, l);
    }
  }

  lemma {:induction false} AddsMoreAt(s: LevelState, added: seq<(nat, Meta)>, i: nat, l: nat)
    requires i < |added|
    ensures added[i].0 == l ==> AddAll(s, AddsAt(added[..i + 1], l)) == AddTo(AddAll(s, AddsAt(added[..i], l)), added[i].1)
    ensures added[i].0 != l ==> AddAll(s, AddsAt(added[..i + 1], l)) == AddAll(s, AddsAt(added[..i], l))
  {
    hide AddTo;
    assert added[..i + 1][..i] == added[..i];
    var adds := AddsAt(added[..i], l);
    assert (adds + [added[i].1])[..|adds|] == adds;
    assert adds + [] == adds;
  }

  lemma {:induction false} MergeNone(base: seq<Meta>, added: seq<Meta>)
    requires added == []
    ensures Merge(base, added) == base
  {
  }

  lemma {:induction false} KeepNone(files: seq<Meta>, deleted: set<nat>)
    requires files == []
    ensures Keep(files, deleted) == []
  {
  }

  lemma {:induction false} MergeBase(base: seq<Meta>, b: nat, added: seq<Meta>)
    requires b < |base| && (added != [] ==> !Less(added[0], base[b]))
    ensures Merge(base[b..], added) == [base[b]] + Merge(base[b + 1..], added)
  {
    assert base[b..] == [base[b]] + base[b + 1..];
  }

  lemma {:induction false} MergeAdded(base: seq<Meta>, added: seq<Meta>)
    requires added != [] && (base != [] ==> Less(added[0], base[0]))
    ensures Merge(base, added) == [added[0]] + Merge(base, added[1..])
  {
    assert added == [added[0]] + added[1..];
  }

  // ----- what the builder means

  ghost function SetOf(files: seq<Meta>): set<Meta> {
    set f | f in files
  }

  ghost function Undeleted(files: set<Meta>, numbers: set<nat>): set<Meta> {
    set f | f in files && f.number !in numbers
  }

  ghost function AllFiles(base: seq<Meta>, s: LevelState): set<Meta> {
    SetOf(base) + SetOf(s.added)
  }

  /** The files the builder would save now. */
  ghost function Kept(base: seq<Meta>, s: LevelState): set<Meta> {
    Undeleted(AllFiles(base, s), s.deleted)
  }

  /** A level with one edit applied by itself. */
  ghost function Changed(level: nat, now: set<Meta>, e: Edit): set<Meta> {
    Undeleted(now, DeletesAt(e.deleted, level)) + SetOf(AddsAt(e.added, level))
  }

  ghost function Folded(level: nat, now: set<Meta>, edits: seq<Edit>): set<Meta> {
    if edits == [] then now else Changed(level, Folded(level, now, edits[..|edits| - 1]), edits[|edits| - 1])
  }

  ghost function ApplyAll(s: LevelState, level: nat, edits: seq<Edit>): LevelState {
    if edits == [] then s else ApplyAt(ApplyAll(s, level, edits[..|edits| - 1]), level, edits[|edits| - 1])
  }

  /** Every file a level has had: the base, then what the edits added. */
  ghost function History(base: seq<Meta>, level: nat, edits: seq<Edit>): seq<Meta> {
    if edits == [] then base else History(base, level, edits[..|edits| - 1]) + AddsAt(edits[|edits| - 1].added, level)
  }

  ghost predicate NumbersDiffer(files: seq<Meta>) {
    forall i, j :: 0 <= i < j < |files| ==> files[i].number != files[j].number
  }

  /** No number comes to the level a second time. */
  ghost predicate NeverReadded(base: seq<Meta>, level: nat, edits: seq<Edit>) {
    NumbersDiffer(History(base, level, edits))
  }

  // ----- single deletions and additions

  /** What edits come down to on one level. */
  datatype Event = Delete(number: nat) | Add(f: Meta)

  function Took(s: LevelState, ev: Event): LevelState {
    match ev
    case Delete(n) => s.(deleted := s.deleted + {n})
    case Add(f) => AddTo(s, f)
  }

  /** The builder after a run of events, from the start. */
  function TookAll(events: seq<Event>): LevelState {
    if events == [] then UNCHANGED else Took(TookAll(events[..|events| - 1]), events[|events| - 1])
  }

  ghost function Turned(now: set<Meta>, ev: Event): set<Meta> {
    match ev
    case Delete(n) => Undeleted(now, {n})
    case Add(f) => now + {f}
  }

  /** The files of a level after the same run. */
  ghost function TurnedAll(now: set<Meta>, events: seq<Event>): set<Meta> {
    if events == [] then now else Turned(TurnedAll(now, events[..|events| - 1]), events[|events| - 1])
  }

  /** The builder would save the files the level has, in order and each once. */
  ghost predicate Agrees(base: seq<Meta>, events: seq<Event>) {
    Lists(Saved(base, TookAll(events)), TurnedAll(SetOf(base), events))
  }

  /** Neither comes before the other: the same smallest key and the same number. */
  predicate Equivalent(f: Meta, g: Meta) {
    !Less(f, g) && !Less(g, f)
  }

  /** What a new file must not meet: an equivalent file in the base, another one among the files
      added, or, if its number was deleted, another file held that has the number. */
  ghost predicate Clashes(base: seq<Meta>, s: LevelState, f: Meta) {
    || (exists g :: g in base && Equivalent(f, g))
    || (exists g :: g in s.added && g != f && Equivalent(f, g))
    || (f.number in s.deleted && exists g :: g in AllFiles(base, s) && g.number == f.number && g != f)
  }

  ghost predicate NeverClashes(base: seq<Meta>, events: seq<Event>) {
    forall k :: 0 <= k < |events| && events[k].Add? ==> !Clashes(base, TookAll(events[..k]), events[k].f)
  }

  // ----- what is saved is in order if the files kept have no twins

  lemma {:induction false} EquivalentFacts(f: Meta, g: Meta, h: Meta)
    ensures Equivalent(f, f) && (Equivalent(f, g) ==> Equivalent(g, f) && f.number == g.number)
    ensures Equivalent(f, g) && Equivalent(g, h) ==> Equivalent(f, h)
  {
    LessFacts(f, g, h);
    LessFacts(f, f, f);
    hide UserPart, TagPart;
  }

  /** No two files that are kept, one of the base and one added, are equivalent. */
  ghost predicate NoTwins(base: seq<Meta>, s: LevelState) {
    forall f, g :: f in base && g in s.added && f.number !in s.deleted && g.number !in s.deleted ==> !Equivalent(f, g)
  }

  ghost predicate WeaklyOrdered(files: seq<Meta>) {
    forall i, j :: 0 <= i < j < |files| ==> !Less(files[j], files[i])
  }

  lemma {:induction false} MergeCounts(base: seq<Meta>, added: seq<Meta>)
    ensures multiset(Merge(base, added)) == multiset(base) + multiset(added)
    decreases |base| + |added|
  {
    hide Less;
    if base != [] && added != [] {
      assert base == [base[0]] + base[1..] && added == [added[0]] + added[1..];
      if Less(added[0], base[0]) {
        MergeCounts(base, added[1..]);
      } else {
        MergeCounts(base[1..], added);
      }
    }
  }

  lemma {:induction false} KeepCounts(files: seq<Meta>, deleted: set<nat>, f: Meta)
    ensures multiset(Keep(files, deleted))[f] == if f.number in deleted then 0 else multiset(files)[f]
  {
    if files != [] {
      assert files == [files[0]] + files[1..];
      KeepCounts(files[1..], deleted, f);
    }
  }

  lemma {:induction false} OrderedOnce(files: seq<Meta>, f: Meta)
    requires Ordered(files)
    ensures multiset(files)[f] <= 1
  {
    hide Less;
    if files != [] {
      var rest := files[1..];
      assert files == [files[0]] + rest;
      OrderedTail(files);
      OrderedOnce(rest, f);
      LessFacts(f, f, f);
      assert f in multiset(rest) ==> f in rest;
    }
  }

  lemma {:induction false} OrderedTail(files: seq<Meta>)
    requires Ordered(files) && files != []
    ensures Ordered(files[1..]) && forall g :: g in files[1..] ==> Less(files[0], g)
  {
    hide Less;
    forall g | g in files[1..]
      ensures Less(files[0], g)
    {
      var k :| 0 <= k < |files[1..]| && files[1..][k] == g;
      assert Less(files[0], files[k + 1]);
    }
  }

  lemma {:induction false} MergeWeakly(base: seq<Meta>, added: seq<Meta>)
    requires Ordered(base) && Ordered(added)
    ensures WeaklyOrdered(Merge(base, added))
    decreases |base| + |added|
  {
    hide Less;
    if base == [] {
      OrderedWeakly(added);
    } else if added == [] {
      OrderedWeakly(base);
    } else {
      OrderedTail(base);
      OrderedTail(added);
      var b := Less(added[0], base[0]);
      var f := if b then added[0] else base[0];
      var restB, restA := if b then base else base[1..], if b then added[1..] else added;
      MergeWeakly(restB, restA);
      forall g | g in Merge(restB, restA)
        ensures !Less(g, f)
      {
        MergeMember(restB, restA, g);
        LessFacts(f, g, f);
        LessFacts(added[0], base[0], g);
        LessFacts(g, base[0], added[0]);
        LessFacts(base[0], g, base[0]);
        LessFacts(g, added[0], base[0]);
        LessFacts(added[0], g, added[0]);
        assert g in restB ==> g == base[0] || g in base[1..];
        assert g in restA ==> g == added[0] || g in added[1..];
      }
    }
  }

  lemma {:induction false} OrderedWeakly(files: seq<Meta>)
    requires Ordered(files)
    ensures WeaklyOrdered(files)
  {
    forall i, j | 0 <= i < j < |files|
      ensures !Less(files[j], files[i])
    {
      LessFacts(files[i], files[j], files[i]);
    }
  }

  lemma {:induction false} MergeMember(base: seq<Meta>, added: seq<Meta>, f: Meta)
    ensures f in Merge(base, added) <==> f in base || f in added
  {
    hide Merge;
    MergeCounts(base, added);
    assert f in multiset(Merge(base, added)) <==> f in multiset(base) || f in multiset(added);
  }

  lemma {:induction false} KeepWeakly(files: seq<Meta>, deleted: set<nat>)
    requires WeaklyOrdered(files)
    ensures WeaklyOrdered(Keep(files, deleted))
    ensures forall f :: f in Keep(files, deleted) <==> f in files && f.number !in deleted
  {
    hide Less;
    if files != [] {
      var rest := files[1..];
      assert files == [files[0]] + rest;
      KeepWeakly(rest, deleted);
      forall g | g in rest
        ensures !Less(g, files[0])
      {
        var k :| 0 <= k < |rest| && rest[k] == g;
        assert !Less(files[k + 1], files[0]);
      }
    }
  }

  /** What is saved are the files kept, and they are in order exactly if there are no twins. */
  lemma {:induction false} SavedLists(base: seq<Meta>, s: LevelState)
    requires Ordered(base) && Ordered(s.added)
    ensures forall f :: f in Saved(base, s) <==> f in Kept(base, s)
    ensures Ordered(Saved(base, s)) <==> NoTwins(base, s)
  {
    hide Less, Merge, Keep, Equivalent;
    var merged := Merge(base, s.added);
    MergeWeakly(base, s.added);
    KeepWeakly(merged, s.deleted);
    forall f
      ensures f in Saved(base, s) <==> f in Kept(base, s)
    {
      MergeMember(base, s.added, f);
    }
    if NoTwins(base, s) {
      NoTwinsOrdered(base, s);
    }
    if Ordered(Saved(base, s)) {
      forall f, g | f in base && g in s.added && f.number !in s.deleted && g.number !in s.deleted
        ensures !Equivalent(f, g)
      {
        TwinsClash(base, s, f, g);
      }
    }
  }

  lemma {:induction false} NoTwinsOrdered(base: seq<Meta>, s: LevelState)
    requires Ordered(base) && Ordered(s.added) && NoTwins(base, s) && WeaklyOrdered(Saved(base, s))
    requires forall f :: f in Saved(base, s) <==> f in Kept(base, s)
    ensures Ordered(Saved(base, s))
  {
    hide Less, Merge, Keep;
    var saved := Saved(base, s);
    forall i, j | 0 <= i < j < |saved|
      ensures Less(saved[i], saved[j])
    {
      var f, g := saved[i], saved[j];
      assert f in saved && g in saved && !Less(g, f);
      if f == g {
        CountTwo(saved, i, j);
        KeepCounts(Merge(base, s.added), s.deleted, f);
        MergeCounts(base, s.added);
        OrderedOnce(base, f);
        OrderedOnce(s.added, f);
        EquivalentFacts(f, f, f);
      } else {
        OrderedApart(base, f, g);
        OrderedApart(s.added, f, g);
        EquivalentFacts(f, g, f);
        EquivalentFacts(g, f, g);
      }
    }
  }

  lemma {:induction false} CountTwo(files: seq<Meta>, i: nat, j: nat)
    requires i < j < |files| && files[i] == files[j]
    ensures multiset(files)[files[i]] >= 2
  {
    assert files == files[..i] + [files[i]] + files[i + 1..j] + [files[j]] + files[j + 1..];
  }

  lemma {:induction false} OrderedApart(files: seq<Meta>, f: Meta, g: Meta)
    requires Ordered(files) && f != g
    ensures f in files && g in files ==> !Equivalent(f, g)
  {
    if f in files && g in files {
      var i :| 0 <= i < |files| && files[i] == f;
      var j :| 0 <= j < |files| && files[j] == g;
      assert i < j ==> Less(files[i], files[j]);
      assert j < i ==> Less(files[j], files[i]);
    }
  }

  lemma {:induction false} TwinsClash(base: seq<Meta>, s: LevelState, f: Meta, g: Meta)
    requires Ordered(Saved(base, s)) && forall h :: h in Saved(base, s) <==> h in Kept(base, s)
    requires f in base && g in s.added && f.number !in s.deleted && g.number !in s.deleted
    ensures !Equivalent(f, g)
  {
    hide Less, Merge, Keep;
    if f == g {
      KeepCounts(Merge(base, s.added), s.deleted, f);
      MergeCounts(base, s.added);
      OrderedOnce(Saved(base, s), f);
      assert false;
    } else {
      OrderedApart(Saved(base, s), f, g);
    }
  }

  // ----- one event

  lemma {:induction false} InsertMember(files: seq<Meta>, f: Meta)
    ensures forall g :: g in Insert(files, f) ==> g == f || g in files
    ensures forall g :: g in files ==> g in Insert(files, f)
    ensures f in Insert(files, f) || exists g :: g in files && g != f && Equivalent(f, g)
  {
    hide Less;
    if files != [] {
      assert files == [files[0]] + files[1..];
      InsertMember(files[1..], f);
      assert files[0] in files && (f == files[0] ==> f in Insert(files, f));
      LessFacts(f, f, f);
      LessFacts(files[0], f, files[0]);
    }
  }

  lemma {:induction false} InsertOrdered(files: seq<Meta>, f: Meta)
    requires Ordered(files)
    ensures Ordered(Insert(files, f))
  {
    hide Less;
    if files != [] {
      var rest := files[1..];
      assert files == [files[0]] + rest;
      OrderedTail(files);
      if Less(files[0], f) {
        InsertOrdered(rest, f);
        InsertMember(rest, f);
        InFront(files[0], Insert(rest, f));
      } else if Less(f, files[0]) {
        forall g | g in files
          ensures Less(f, g)
        {
          LessFacts(f, files[0], g);
        }
        InFront(f, files);
      }
    }
  }

  lemma {:induction false} InFront(f: Meta, files: seq<Meta>)
    requires Ordered(files) && forall g :: g in files ==> Less(f, g)
    ensures Ordered([f] + files)
  {
    hide Less;
    var all := [f] + files;
    forall i, j | 0 <= i < j < |all|
      ensures Less(all[i], all[j])
    {
      assert files[j - 1] in files && all[j] == files[j - 1];
      assert i > 0 ==> Less(files[i - 1], files[j - 1]);
    }
  }

  /** No equivalent file can be in the way of one that is not there yet. */
  lemma {:induction false} InWay(files: seq<Meta>, f: Meta, g: Meta)
    requires Ordered(files) && g in files && g != f && Equivalent(f, g)
    ensures f !in Insert(files, f)
  {
    hide Less, Equivalent;
    InsertOrdered(files, f);
    InsertMember(files, f);
    OrderedApart(Insert(files, f), f, g);
  }

  /** What the builder holds of the level, and that it can be listed. */
  ghost predicate Holds(base: seq<Meta>, s: LevelState, now: set<Meta>) {
    Ordered(base) && Ordered(s.added) && NoTwins(base, s) && Kept(base, s) == now
  }

  lemma {:induction false} HoldsLists(base: seq<Meta>, s: LevelState, now: set<Meta>)
    requires Ordered(base) && Ordered(s.added)
    ensures Holds(base, s, now) <==> Lists(Saved(base, s), now)
  {
    hide Less, NoTwins, Saved;
    SavedLists(base, s);
    if Lists(Saved(base, s), now) {
      assert Kept(base, s) == now;
    }
  }

  lemma {:induction false} DeleteHolds(base: seq<Meta>, s: LevelState, now: set<Meta>, n: nat)
    requires Holds(base, s, now)
    ensures Holds(base, Took(s, Delete(n)), Turned(now, Delete(n)))
  {
    hide Equivalent, Ordered;
    assert AllFiles(base, Took(s, Delete(n))) == AllFiles(base, s);
  }

  lemma {:induction false} AddedFiles(base: seq<Meta>, s: LevelState, f: Meta)
    requires f in Insert(s.added, f)
    ensures AllFiles(base, AddTo(s, f)) == AllFiles(base, s) + {f}
  {
    hide Insert, Equivalent;
    InsertMember(s.added, f);
  }

  lemma {:induction false} AddHolds(base: seq<Meta>, s: LevelState, now: set<Meta>, f: Meta)
    requires Holds(base, s, now) && !Clashes(base, s, f)
    ensures Holds(base, Took(s, Add(f)), Turned(now, Add(f)))
  {
    hide Equivalent, Ordered, Insert;
    InsertOrdered(s.added, f);
    InsertMember(s.added, f);
    AddedFiles(base, s, f);
    EquivalentFacts(f, f, f);
    var s' := AddTo(s, f);
    assert Kept(base, s') == now + {f};
    forall x, y | x in base && y in s'.added && x.number !in s'.deleted && y.number !in s'.deleted
      ensures !Equivalent(x, y)
    {
      EquivalentFacts(x, y, x);
      assert x in AllFiles(base, s);
      assert y != f ==> y in s.added && y in AllFiles(base, s);
    }
  }

  /** A clash shows at once: another file comes back, the new one does not get in, or there are
      two in one place. */
  lemma {:induction false} ClashShows(base: seq<Meta>, s: LevelState, now: set<Meta>, f: Meta)
    requires Holds(base, s, now) && Clashes(base, s, f)
    ensures !Holds(base, Took(s, Add(f)), Turned(now, Add(f)))
  {
    hide Equivalent, Ordered, Insert;
    var s' := AddTo(s, f);
    InsertMember(s.added, f);
    if g :| g in base && Equivalent(f, g) {
      EquivalentFacts(f, g, f);
      var h :| h in s'.added && Equivalent(f, h);
      EquivalentFacts(g, f, h);
      EquivalentFacts(f, h, f);
      assert !NoTwins(base, s');
    } else if g :| g in s.added && g != f && Equivalent(f, g) {
      InWay(s.added, f, g);
      EquivalentFacts(f, f, f);
      assert f !in AllFiles(base, s');
      assert f !in Kept(base, s') && f in now + {f};
    } else {
      var g :| g in AllFiles(base, s) && g.number == f.number && g != f;
      assert g in AllFiles(base, s');
      assert g in Kept(base, s') && g !in now + {f};
    }
  }

  // ----- runs

  lemma {:induction false} AddedOrdered(events: seq<Event>)
    ensures Ordered(TookAll(events).added)
  {
    if events != [] {
      hide Ordered, Insert;
      var n := |events| - 1;
      AddedOrdered(events[..n]);
      if events[n].Add? {
        InsertOrdered(TookAll(events[..n]).added, events[n].f);
      }
    }
  }

  lemma {:induction false} AgreesIs(base: seq<Meta>, events: seq<Event>)
    requires Ordered(base)
    ensures Agrees(base, events) <==> Holds(base, TookAll(events), TurnedAll(SetOf(base), events))
  {
    AddedOrdered(events);
    hide Ordered, Lists, Saved, TookAll, TurnedAll, Holds;
    HoldsLists(base, TookAll(events), TurnedAll(SetOf(base), events));
  }

  lemma {:induction false} AgreesAtStart(base: seq<Meta>)
    requires Ordered(base)
    ensures Agrees(base, [])
  {
    hide Less;
    var none: seq<Event> := [];
    AgreesIs(base, none);
    assert TookAll(none) == UNCHANGED;
    assert AllFiles(base, UNCHANGED) == SetOf(base);
    assert Kept(base, UNCHANGED) == SetOf(base);
    assert Holds(base, TookAll(none), TurnedAll(SetOf(base), none));
  }

  /** After one more event the builder still agrees exactly if the event is no clash. */
  lemma {:induction false} StepAgrees(base: seq<Meta>, events: seq<Event>, ev: Event)
    requires Ordered(base) && Agrees(base, events)
    ensures Agrees(base, events + [ev]) <==> !(ev.Add? && Clashes(base, TookAll(events), ev.f))
  {
    var more := events + [ev];
    assert more[..|events|] == events && more[|more| - 1] == ev;
    var s, now := TookAll(events), TurnedAll(SetOf(base), events);
    assert TookAll(more) == Took(s, ev) && TurnedAll(SetOf(base), more) == Turned(now, ev);
    AgreesIs(base, events);
    AgreesIs(base, more);
    hide *;
    match ev
    case Delete(n) => DeleteHolds(base, s, now, n);
    case Add(f) =>
      if Clashes(base, s, f) {
        ClashShows(base, s, now, f);
      } else {
        AddHolds(base, s, now, f);
      }
  }

  /** The builder agrees after every event of a run if and only if none of the run clashes. */
  lemma {:induction false} AgreesThroughoutIff(base: seq<Meta>, events: seq<Event>)
    requires Ordered(base)
    ensures (forall k :: 0 <= k <= |events| ==> Agrees(base, events[..k])) <==> NeverClashes(base, events)
  {
    hide Agrees, Clashes, TookAll, Ordered;
    if events == [] {
      AgreesAtStart(base);
    } else {
      var n := |events| - 1;
      var before, ev := events[..n], events[n];
      AgreesThroughoutIff(base, before);
      assert events == before + [ev] && events[..|events|] == events && before[..n] == before;
      assert forall k :: 0 <= k <= n ==> events[..k] == before[..k];
      NeverClashesStep(base, before, ev);
      if Agrees(base, before) {
        StepAgrees(base, before, ev);
      }
    }
  }

  lemma {:induction false} NeverClashesStep(base: seq<Meta>, events: seq<Event>, ev: Event)
    ensures NeverClashes(base, events + [ev]) <==>
        NeverClashes(base, events) && !(ev.Add? && Clashes(base, TookAll(events), ev.f))
  {
    hide Clashes, TookAll;
    var more := events + [ev];
    assert forall k :: 0 <= k <= |events| ==> more[..k] == events[..k];
    assert events[..|events|] == events && more[|events|] == ev;
    if NeverClashes(base, more) {
      assert more[|events|].Add? ==> !Clashes(base, TookAll(more[..|events|]), more[|events|].f);
      forall k | 0 <= k < |events| && events[k].Add?
        ensures !Clashes(base, TookAll(events[..k]), events[k].f)
      {
        assert more[k].Add?;
      }
    }
  }

  // ----- runs of edits

  function Deletions(deleted: seq<(nat, nat)>, level: nat): seq<Event> {
    if deleted == [] then []
    else
      var p := deleted[|deleted| - 1];
      Deletions(deleted[..|deleted| - 1], level) + if p.0 == level then [Delete(p.1)] else []
  }

  function Additions(files: seq<Meta>): seq<Event> {
    if files == [] then [] else Additions(files[..|files| - 1]) + [Add(files[|files| - 1])]
  }

  function EventsOf(level: nat, edits: seq<Edit>): seq<Event> {
    if edits == [] then []
    else
      var e := edits[|edits| - 1];
      EventsOf(level, edits[..|edits| - 1]) + Deletions(e.deleted, level) + Additions(AddsAt(e.added, level))
  }

  lemma {:induction false} LastEvent(now: set<Meta>, events: seq<Event>, ev: Event)
    ensures TookAll(events + [ev]) == Took(TookAll(events), ev)
    ensures TurnedAll(now, events + [ev]) == Turned(TurnedAll(now, events), ev)
  {
    assert (events + [ev])[..|events|] == events;
  }

  lemma {:induction false} TookDeletions(now: set<Meta>, events: seq<Event>, deleted: seq<(nat, nat)>, level: nat)
    ensures var s := TookAll(events);
      TookAll(events + Deletions(deleted, level)) == s.(deleted := s.deleted + DeletesAt(deleted, level))
    ensures TurnedAll(now, events + Deletions(deleted, level)) ==
        Undeleted(TurnedAll(now, events), DeletesAt(deleted, level))
  {
    hide TookAll, TurnedAll;
    if deleted == [] {
      assert events + [] == events;
    } else {
      var n := |deleted| - 1;
      var p, some := deleted[n], deleted[..n];
      TookDeletions(now, events, some, level);
      DeletesMore(deleted, n);
      assert deleted[..n + 1] == deleted;
      if p.0 == level {
        LastEvent(now, events + Deletions(some, level), Delete(p.1));
        assert events + Deletions(deleted, level) == events + Deletions(some, level) + [Delete(p.1)];
      } else {
        assert events + Deletions(deleted, level) == events + Deletions(some, level);
      }
    }
  }

  lemma {:induction false} TookAdditions(now: set<Meta>, events: seq<Event>, files: seq<Meta>)
    ensures TookAll(events + Additions(files)) == AddAll(TookAll(events), files)
    ensures TurnedAll(now, events + Additions(files)) == TurnedAll(now, events) + SetOf(files)
  {
    hide TookAll, TurnedAll, AddTo;
    if files == [] {
      assert events + [] == events;
    } else {
      var n := |files| - 1;
      TookAdditions(now, events, files[..n]);
      LastEvent(now, events + Additions(files[..n]), Add(files[n]));
      assert events + Additions(files) == events + Additions(files[..n]) + [Add(files[n])];
      assert files == files[..n] + [files[n]];
      assert SetOf(files) == SetOf(files[..n]) + {files[n]};
    }
  }

  /** A run of edits is the run of its single deletions and additions. */
  lemma {:induction false} EditsAreEvents(level: nat, now: set<Meta>, edits: seq<Edit>)
    ensures TookAll(EventsOf(level, edits)) == ApplyAll(UNCHANGED, level, edits)
    ensures TurnedAll(now, EventsOf(level, edits)) == Folded(level, now, edits)
  {
    if edits != [] {
      hide TookAll, TurnedAll, Deletions, Additions, AddAll, AddsAt, DeletesAt;
      var n := |edits| - 1;
      var e, before := edits[n], EventsOf(level, edits[..n]);
      EditsAreEvents(level, now, edits[..n]);
      TookDeletions(now, before, e.deleted, level);
      TookAdditions(now, before + Deletions(e.deleted, level), AddsAt(e.added, level));
    }
  }

  // ----- numbers that never come back do not clash

  /** The files a run adds, in order. */
  function AddedBy(events: seq<Event>): seq<Meta> {
    if events == [] then []
    else
      var ev := events[|events| - 1];
      AddedBy(events[..|events| - 1]) + if ev.Add? then [ev.f] else []
  }

  lemma {:induction false} AddedByParts(a: seq<Event>, b: seq<Event>)
    ensures AddedBy(a + b) == AddedBy(a) + AddedBy(b)
  {
    if b == [] {
      assert a + b == a;
    } else {
      var n := |b| - 1;
      AddedByParts(a, b[..n]);
      assert (a + b)[..|a| + n] == a + b[..n];
    }
  }

  lemma {:induction false} AddedByEdit(deleted: seq<(nat, nat)>, level: nat, files: seq<Meta>)
    ensures AddedBy(Deletions(deleted, level)) == [] && AddedBy(Additions(files)) == files
  {
    if deleted != [] {
      var p := deleted[|deleted| - 1];
      AddedByEdit(deleted[..|deleted| - 1], level, files);
      AddedByParts(Deletions(deleted[..|deleted| - 1], level), [Delete(p.1)]);
      assert Deletions(deleted[..|deleted| - 1], level) + [] == Deletions(deleted[..|deleted| - 1], level);
      OneAdded(Delete(p.1));
    } else if files != [] {
      var n := |files| - 1;
      AddedByEdit(deleted, level, files[..n]);
      AddedByParts(Additions(files[..n]), [Add(files[n])]);
      OneAdded(Add(files[n]));
      assert files == files[..n] + [files[n]];
    }
  }

  lemma {:induction false} OneAdded(ev: Event)
    ensures AddedBy([ev]) == if ev.Add? then [ev.f] else []
  {
    assert [ev][..0] == [];
  }

  lemma {:induction false} HistoryIs(base: seq<Meta>, level: nat, edits: seq<Edit>)
    ensures History(base, level, edits) == base + AddedBy(EventsOf(level, edits))
  {
    if edits == [] {
      assert base + [] == base;
    } else {
      hide AddedBy, Deletions, Additions;
      var n := |edits| - 1;
      var e, before := edits[n], EventsOf(level, edits[..n]);
      assert EventsOf(level, edits) == before + Deletions(e.deleted, level) + Additions(AddsAt(e.added, level));
      assert History(base, level, edits) == History(base, level, edits[..n]) + AddsAt(e.added, level);
      HistoryIs(base, level, edits[..n]);
      AddedByEdit(e.deleted, level, AddsAt(e.added, level));
      AddedByParts(before, Deletions(e.deleted, level));
      AddedByParts(before + Deletions(e.deleted, level), Additions(AddsAt(e.added, level)));
      hide EventsOf, History;
      Regroup(base, AddedBy(before), AddsAt(e.added, level));
    }
  }

  lemma {:induction false} Regroup(a: seq<Meta>, b: seq<Meta>, c: seq<Meta>)
    ensures (a + b) + c == a + (b + [] + c)
  {
  }

  lemma {:induction false} HeldWasAdded(events: seq<Event>)
    ensures forall g :: g in TookAll(events).added ==> g in AddedBy(events)
  {
    if events != [] {
      hide Insert, Equivalent;
      var n := |events| - 1;
      HeldWasAdded(events[..n]);
      if events[n].Add? {
        InsertMember(TookAll(events[..n]).added, events[n].f);
      }
    }
  }

  lemma {:induction false} FreshNeverClashes(base: seq<Meta>, events: seq<Event>)
    requires NumbersDiffer(base + AddedBy(events))
    ensures NeverClashes(base, events)
  {
    if events != [] {
      var n := |events| - 1;
      var before, ev := events[..n], events[n];
      assert events == before + [ev];
      AddedByParts(before, [ev]);
      OneAdded(ev);
      assert base + AddedBy(events) == (base + AddedBy(before)) + AddedBy([ev]);
      FewerDiffer(base + AddedBy(before), AddedBy([ev]));
      hide AddedBy;
      FreshNeverClashes(base, before);
      NeverClashesStep(base, before, ev);
      if ev.Add? {
        NewNumberNoClash(base, before, ev.f);
      }
    }
  }

  lemma {:induction false} NewNumberNoClash(base: seq<Meta>, events: seq<Event>, f: Meta)
    requires NumbersDiffer((base + AddedBy(events)) + [f])
    ensures !Clashes(base, TookAll(events), f)
  {
    hide Equivalent, TookAll, AddedBy;
    var history := base + AddedBy(events);
    HeldWasAdded(events);
    forall g | g in AllFiles(base, TookAll(events))
      ensures g.number != f.number && !Equivalent(f, g)
    {
      assert g in history;
      var k :| 0 <= k < |history| && history[k] == g;
      assert (history + [f])[k] == g && (history + [f])[|history|] == f;
      EquivalentFacts(f, g, f);
    }
    assert forall g :: g in base || g in TookAll(events).added ==> g in AllFiles(base, TookAll(events));
  }

  lemma {:induction false} FewerDiffer(a: seq<Meta>, b: seq<Meta>)
    requires NumbersDiffer(a + b)
    ensures NumbersDiffer(a)
  {
    forall i, j | 0 <= i < j < |a|
      ensures a[i].number != a[j].number
    {
      assert (a + b)[i] == a[i] && (a + b)[j] == a[j];
    }
  }

  /** The builder given a whole run of edits saves what applying them one at a time gives, in order. */
  lemma {:induction false} ReplayIsFold(base: seq<Meta>, level: nat, edits: seq<Edit>)
    requires Ordered(base) && NeverReadded(base, level, edits)
    ensures Lists(Saved(base, ApplyAll(UNCHANGED, level, edits)), Folded(level, SetOf(base), edits))
  {
    var events := EventsOf(level, edits);
    HistoryIs(base, level, edits);
    EditsAreEvents(level, SetOf(base), edits);
    hide Lists, Saved, ApplyAll, Folded, EventsOf, Ordered, AddedBy, TookAll, TurnedAll;
    FreshNeverClashes(base, events);
    AgreesThroughoutIff(base, events);
    assert events[..|events|] == events;
    assert Agrees(base, events);
  }

  // ----- a version after every edit

  /** Every edit saved by a builder of its own, on top of the version before. */
  ghost function SavedEach(base: seq<Meta>, level: nat, edits: seq<Edit>): seq<Meta> {
    if edits == [] then base
    else Saved(SavedEach(base, level, edits[..|edits| - 1]), ApplyAt(UNCHANGED, level, edits[|edits| - 1]))
  }

  lemma {:induction false} EachIsFold(base: seq<Meta>, level: nat, edits: seq<Edit>)
    requires Ordered(base) && NeverReadded(base, level, edits)
    ensures Lists(SavedEach(base, level, edits), Folded(level, SetOf(base), edits))
    ensures forall f :: f in Folded(level, SetOf(base), edits) ==> f in History(base, level, edits)
  {
    if edits != [] {
      hide Less, Saved, ApplyAt, NumbersDiffer;
      var n := |edits| - 1;
      var before, e := edits[..n], edits[n];
      var now := Folded(level, SetOf(base), before);
      var saved := SavedEach(base, level, before);
      FewerDiffer(History(base, level, before), AddsAt(e.added, level));
      EachIsFold(base, level, before);
      NowDiffers(saved, now, History(base, level, before), AddsAt(e.added, level));
      assert History(saved, level, [e]) == saved + AddsAt(e.added, level) by {
        assert [e][..0] == [];
      }
      ReplayIsFold(saved, level, [e]);
      OneEdit(saved, level, e);
      assert SetOf(saved) == now;
    }
  }

  lemma {:induction false} OneEdit(saved: seq<Meta>, level: nat, e: Edit)
    ensures ApplyAll(UNCHANGED, level, [e]) == ApplyAt(UNCHANGED, level, e)
    ensures Folded(level, SetOf(saved), [e]) == Changed(level, SetOf(saved), e)
  {
    assert [e][..0] == [];
  }

  lemma {:induction false} NowDiffers(saved: seq<Meta>, now: set<Meta>, history: seq<Meta>, more: seq<Meta>)
    requires Lists(saved, now) && NumbersDiffer(history + more) && forall f :: f in now ==> f in history
    ensures NumbersDiffer(saved + more)
  {
    hide Less;
    var all := saved + more;
    forall i, j | 0 <= i < j < |all|
      ensures all[i].number != all[j].number
    {
      var k := if i < |saved| then Place(saved, i, history) else |history| + i - |saved|;
      var l := if j < |saved| then Place(saved, j, history) else |history| + j - |saved|;
      assert (history + more)[k] == all[i] && (history + more)[l] == all[j];
      if j < |saved| {
        LessFacts(saved[i], saved[j], saved[i]);
        assert Less(saved[i], saved[j]);
      }
    }
  }

  ghost function Place(saved: seq<Meta>, i: nat, history: seq<Meta>): (k: nat)
    requires i < |saved| && forall f :: f in saved ==> f in history
    ensures k < |history| && history[k] == saved[i]
  {
    assert saved[i] in saved;
    var k :| 0 <= k < |history| && history[k] == saved[i];
    k
  }

  /** All at once, or a version for every edit: the same list of files. */
  lemma {:induction false} ReplayIsEach(base: seq<Meta>, level: nat, edits: seq<Edit>)
    requires Ordered(base) && NeverReadded(base, level, edits)
    ensures Saved(base, ApplyAll(UNCHANGED, level, edits)) == SavedEach(base, level, edits)
  {
    hide *;
    ReplayIsFold(base, level, edits);
    EachIsFold(base, level, edits);
    ListingUnique(Saved(base, ApplyAll(UNCHANGED, level, edits)), SavedEach(base, level, edits),
        Folded(level, SetOf(base), edits));
  }

  // ----- why numbers must not come back

  /** A number deleted and added again brings back the file that had it before. */
  lemma {:induction false} DeletedFileReturns(f: Meta, g: Meta, add: Edit, delete: Edit, addAgain: Edit)
    requires f.number == g.number && CompareEncoded(f.smallest, g.smallest) < 0
    requires add == NO_EDIT.(added := [(0, f)]) && delete == NO_EDIT.(deleted := [(0, f.number)]) &&
      addAgain == NO_EDIT.(added := [(0, g)])
    ensures Saved([], ApplyAll(UNCHANGED, 0, [add] + [delete] + [addAgain])) == [f, g]
    ensures SavedEach([], 0, [add] + [delete] + [addAgain]) == [g]
  {
    TheStates(f, g);
    hide *;
    TheFiles(f, g);
    var none: seq<Edit> := [];
    NoEdits(none);
    LastEdit(none, add);
    LastEdit([add], delete);
    LastEdit([add] + [delete], addAgain);
    assert none + [add] == [add];
  }

  lemma {:induction false} NoEdits(edits: seq<Edit>)
    requires edits == []
    ensures ApplyAll(UNCHANGED, 0, edits) == UNCHANGED && SavedEach([], 0, edits) == []
  {
  }

  lemma {:induction false} LastEdit(edits: seq<Edit>, e: Edit)
    ensures ApplyAll(UNCHANGED, 0, edits + [e]) == ApplyAt(ApplyAll(UNCHANGED, 0, edits), 0, e)
    ensures SavedEach([], 0, edits + [e]) == Saved(SavedEach([], 0, edits), ApplyAt(UNCHANGED, 0, e))
  {
    assert (edits + [e])[..|edits|] == edits;
  }

  lemma {:induction false} TheStates(f: Meta, g: Meta)
    requires f.number == g.number && CompareEncoded(f.smallest, g.smallest) < 0
    ensures ApplyAt(UNCHANGED, 0, NO_EDIT.(added := [(0, f)])) == LevelState({}, [f])
    ensures ApplyAt(LevelState({}, [f]), 0, NO_EDIT.(deleted := [(0, f.number)])) == LevelState({f.number}, [f])
    ensures ApplyAt(LevelState({f.number}, [f]), 0, NO_EDIT.(added := [(0, g)])) == LevelState({}, [f, g])
    ensures ApplyAt(UNCHANGED, 0, NO_EDIT.(deleted := [(0, f.number)])) == LevelState({f.number}, [])
    ensures ApplyAt(UNCHANGED, 0, NO_EDIT.(added := [(0, g)])) == LevelState({}, [g])
  {
    OnlyAdds(f);
    OnlyAdds(g);
    OnlyDeletes(f.number);
    assert Less(f, g) && Insert([f], g) == [f] + Insert([], g);
    hide Less, Insert, AddsAt, AddAll, DeletesAt;
    var none: set<nat> := {};
    assert none + {} == {} && none - {f.number} == {} && {f.number} + {} - {g.number} == {} &&
      none + {f.number} == {f.number};
  }

  lemma {:induction false} TheFiles(f: Meta, g: Meta)
    requires f.number == g.number
    ensures Saved([], LevelState({}, [f, g])) == [f, g] && Saved([], LevelState({}, [f])) == [f] &&
      Saved([], LevelState({}, [g])) == [g]
    ensures Saved([f], LevelState({f.number}, [])) == []
  {
    var none: seq<Meta> := [];
    assert Merge(none, [f, g]) == [f, g] && Merge(none, [f]) == [f] && Merge(none, [g]) == [g] &&
      Merge([f], none) == [f];
    KeepOne(f, none, {});
    KeepOne(g, none, {});
    KeepOne(f, [g], {});
    KeepOne(f, none, {f.number});
    assert [f] + [g] == [f, g] && [f] + none == [f] && [g] + none == [g];
  }

  lemma {:induction false} KeepOne(f: Meta, rest: seq<Meta>, deleted: set<nat>)
    ensures Keep([f] + rest, deleted) == (if f.number in deleted then [] else [f]) + Keep(rest, deleted)
    ensures Keep([], deleted) == []
  {
    assert ([f] + rest)[1..] == rest;
  }

  lemma {:induction false} OnlyAdds(f: Meta)
    ensures AddsAt([(0, f)], 0) == [f] && AddsAt([], 0) == [] && DeletesAt([], 0) == {} && Insert([], f) == [f]
    ensures forall s :: AddAll(s, [f]) == AddTo(s, f) && AddAll(s, []) == s
  {
    assert [(0, f)][..0] == [] && [f][..0] == [];
  }

  lemma {:induction false} OnlyDeletes(n: nat)
    ensures DeletesAt([(0, n)], 0) == {n}
  {
    assert (0, n) in [(0, n)];
  }

  // ----- the files of a level, with what they hold

  function MetaOf(f: Files.File): Meta {
    Meta(f.number, f.size, Encode(f.smallest), Encode(f.largest))
  }

  function Metas(files: seq<Files.File>): (ms: seq<Meta>)
    ensures |ms| == |files|
  {
    seq(|files|, i requires 0 <= i < |files| => MetaOf(files[i]))
  }

  /** Where a level of files takes in a new one, the builder's ordered set takes it in too. */
  lemma {:induction false} InsertIsAddFile(files: seq<Files.File>, f: Files.File)
    requires forall g :: g in files ==> g.number != f.number
    ensures Metas(Files.AddFile(files, f)) == Insert(Metas(files), MetaOf(f))
  {
    hide MetaOf, Less, Files.BySmallestKey;
    if files != [] {
      var g, rest := files[0], files[1..];
      assert files == [g] + rest && Metas(files)[1..] == Metas(rest);
      SameOrder(f, g);
      SameOrder(g, f);
      LessFacts(MetaOf(f), MetaOf(g), MetaOf(f));
      NumberKept(f);
      NumberKept(g);
      if Files.BySmallestKey(f, g) {
        assert Metas([f] + files) == [MetaOf(f)] + Metas(files);
      } else {
        InsertIsAddFile(rest, f);
        assert Metas([g] + Files.AddFile(rest, f)) == [MetaOf(g)] + Metas(Files.AddFile(rest, f));
      }
    }
  }

  lemma {:induction false} NumberKept(f: Files.File)
    ensures MetaOf(f).number == f.number
  {
  }

  lemma {:induction false} SameOrder(f: Files.File, g: Files.File)
    ensures Less(MetaOf(f), MetaOf(g)) <==> Files.BySmallestKey(f, g)
  {
    hide Encode, CompareEncoded;
    EncodedOrder(f.smallest, g.smallest);
  }
}
