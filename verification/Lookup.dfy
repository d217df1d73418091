/** Point lookups: the first place that answers holds the newest visible version. */
module Lookup {
  import opened ByteStrings
  import opened InternalKeys
  import opened Cursors
  import opened Reads
  import opened Files

  /** Whatever versions of a user key both sets hold, those in the first are newer. */
  ghost predicate NewerThan(upper: set<Entry>, lower: set<Entry>) {
    forall d, e :: d in upper && e in lower && d.key.user == e.key.user ==> Tag(d.key) > Tag(e.key)
  }

  /** On level 0 a larger file number means newer entries. */
  ghost predicate OrderedByNumber(files: seq<File>) {
    forall f, g :: f in files && g in files && f.number >= g.number ==>
      f == g || (f.number > g.number && NewerThan(Contents(f.entries), Contents(g.entries)))
  }

  /** Entries of the first `n` levels. */
  ghost function EntriesAbove(v: Levels, n: nat): set<Entry>
    requires n <= NUM_LEVELS
  {
    set l, f, e | 0 <= l < n && f in v[l] && e in f.entries :: e
  }

  ghost predicate LevelsOrdered(v: Levels) {
    && OrderedByNumber(v[0])
    && forall l :: 0 <= l < NUM_LEVELS ==> NewerThan(EntriesAbove(v, l), EntriesOf(v[l]))
  }

  /** Memtable, immutable memtable and files of a database. */
  datatype Db = Db(mem: seq<Entry>, imm: Option<seq<Entry>>, v: Levels) {
    ghost function Imm(): set<Entry> {
      if imm.Some? then Contents(imm.value) else {}
    }

    ghost function All(): set<Entry> {
      Contents(mem) + Imm() + EntriesAbove(v, NUM_LEVELS)
    }

    /** Shallower data is newer, for every user key. */
    ghost predicate Ordered() {
      && Sorted(mem)
      && (imm.Some? ==> Sorted(imm.value))
      && WellShaped(v)
      && LevelsOrdered(v)
      && NewerThan(Contents(mem), Imm())
      && NewerThan(Contents(mem) + Imm(), EntriesAbove(v, NUM_LEVELS))
      && UniqueKeys(All())
    }
  }

  datatype Found = Miss | Hit(entry: Entry)

  /** A hit is the newest visible entry of the set; a miss means there is none. */
  ghost predicate Answers(r: Found, es: set<Entry>, user: Bytes, s: SequenceNumber) {
    match r
    case Miss => forall e :: e in es ==> !VisibleTo(e, user, s)
    case Hit(e) => Newest(es, user, s, e)
  }

  lemma {:induction false} AnswerBelow(r: Found, upper: set<Entry>, lower: set<Entry>, user: Bytes, s: SequenceNumber)
    requires NewerThan(upper, lower)
    ensures r.Hit? && Answers(r, upper, user, s) ==> Answers(r, upper + lower, user, s)
    ensures Answers(Miss, upper, user, s) && Answers(r, lower, user, s) ==> Answers(r, upper + lower, user, s)
  {
  }

  /** The first entry at or after the seek key, if it belongs to the user key. */
  function Probe(es: seq<Entry>, user: Bytes, s: SequenceNumber): Found {
    var i := LowerBound(es, SeekKey(user, s));
    if i < |es| && CompareBytes(es[i].key.user, user) == 0 then Hit(es[i]) else Miss
  }

  /** Visible entries of a user key are those at or after its seek key. */
  lemma {:induction false} VisibleAfterSeek(e: Entry, user: Bytes, s: SequenceNumber)
    requires e.key.user == user
    ensures VisibleTo(e, user, s) <==> !Before(e.key, SeekKey(user, s))
  {
  }

  lemma {:induction false} ProbeAnswers(es: seq<Entry>, user: Bytes, s: SequenceNumber)
    requires Sorted(es)
    ensures Answers(Probe(es, user, s), Contents(es), user, s)
  {
    var i := LowerBound(es, SeekKey(user, s));
    if i < |es| {
      VisibleAfterSeek(es[i], es[i].key.user, s);
    }
    forall e | e in es && VisibleTo(e, user, s)
      ensures i < |es| && es[i].key.user == user && Tag(e.key) <= Tag(es[i].key)
    {
      var j: nat :| j < |es| && es[j] == e;
      VisibleAfterSeek(e, user, s);
      assert i < j ==> Before(es[i].key, es[j].key);
    }
  }

  /** Binary search for the first file whose largest key is at or after `key`. */
  method FindFile(files: seq<File>, key: IKey) returns (r: nat)
    requires Disjoint(files)
    ensures r <= |files|
    ensures forall i :: 0 <= i < r ==> Before(files[i].largest, key)
    ensures r < |files| ==> !Before(files[r].largest, key)
  {
    var left, right := 0, |files|;
    while left < right
      invariant left <= right <= |files|
      invariant forall i :: 0 <= i < left ==> Before(files[i].largest, key)
      invariant right < |files| ==> !Before(files[right].largest, key)
    {
      var mid := (left + right) / 2;
      if Compare(files[mid].largest, key) < 0 {
        forall i | left <= i < mid
          ensures Before(files[i].largest, key)
        {
          RangeOrdered(files[mid]);
          assert Before(files[i].largest, files[mid].smallest);
        }
        left := mid + 1;
      } else {
        right := mid;
      }
    }
    return right;
  }

  /** On a sorted level only the file found by binary search can answer. */
  lemma {:induction false} OneFileAnswers(files: seq<File>, user: Bytes, s: SequenceNumber, i: nat)
    requires Disjoint(files) && i <= |files|
    requires forall j :: 0 <= j < i ==> Before(files[j].largest, SeekKey(user, s))
    requires i < |files| ==> !Before(files[i].largest, SeekKey(user, s))
    ensures i == |files| ==> Answers(Miss, EntriesOf(files), user, s)
    ensures i < |files| ==> Answers(Probe(files[i].entries, user, s), EntriesOf(files), user, s)
  {
    hide Rank;
    var key := SeekKey(user, s);
    forall f, e | f in files && e in f.entries && VisibleTo(e, user, s)
      ensures i < |files|
      ensures f == files[i] || (Probe(files[i].entries, user, s).Hit? &&
        Tag(e.key) <= Tag(Probe(files[i].entries, user, s).entry.key))
    {
      var j: nat :| j < |files| && files[j] == f;
      InRange(f, e);
      VisibleAfterSeek(e, user, s);
      if i < j {
        LaterFile(files, user, s, i, j, e);
      }
    }
    if i < |files| {
      ProbeAnswers(files[i].entries, user, s);
    }
  }

  /** If a later file still holds the user key, the found file ends in a newer version. */
  lemma {:induction false} LaterFile(files: seq<File>, user: Bytes, s: SequenceNumber, i: nat, j: nat, e: Entry)
    requires Disjoint(files) && i < j < |files|
    requires !Before(files[i].largest, SeekKey(user, s))
    requires e in files[j].entries && VisibleTo(e, user, s)
    ensures Probe(files[i].entries, user, s).Hit?
    ensures Tag(e.key) <= Tag(Probe(files[i].entries, user, s).entry.key)
  {
    hide Rank;
    assert files[i] in files && files[i].Ok();
    var es := files[i].entries;
    var last := es[|es| - 1];
    InRange(files[j], e);
    assert Before(files[i].largest, files[j].smallest);
    assert last.key.user == user;
    VisibleAfterSeek(last, user, s);
    ProbeAnswers(es, user, s);
    assert last in Contents(es);
  }

  /** Level-0 files, newest first. */
  function InsertByNumber(files: seq<File>, f: File): seq<File> {
    if files == [] || f.number > files[0].number then [f] + files
    else [files[0]] + InsertByNumber(files[1..], f)
  }

  function NewestFirst(files: seq<File>): seq<File> {
    if files == [] then [] else InsertByNumber(NewestFirst(files[1..]), files[0])
  }

  ghost predicate Descending(files: seq<File>) {
    forall i, j :: 0 <= i < j < |files| ==> files[i].number >= files[j].number
  }

  lemma {:induction false} InsertKeepsDescending(files: seq<File>, f: File)
    requires Descending(files)
    ensures Descending(InsertByNumber(files, f))
    ensures forall g :: g in InsertByNumber(files, f) <==> g == f || g in files
  {
    hide Rank;
    if files != [] && f.number <= files[0].number {
      InsertKeepsDescending(files[1..], f);
      assert forall g :: g in files[1..] ==> g.number <= files[0].number;
      assert files == [files[0]] + files[1..];
    }
  }

  lemma {:induction false} NewestFirstDescends(files: seq<File>)
    ensures Descending(NewestFirst(files))
    ensures forall g :: g in NewestFirst(files) <==> g in files
  {
    if files != [] {
      NewestFirstDescends(files[1..]);
      InsertKeepsDescending(NewestFirst(files[1..]), files[0]);
    }
  }

  lemma {:induction false} FilesMeet(files: seq<File>, user: Bytes)
    requires forall f :: f in files ==> f.Ok()
    ensures forall f, e :: f in files && e in f.entries && e.key.user == user ==> f.Spans(user)
  {
    forall f, e | f in files && e in f.entries && e.key.user == user
      ensures f.Spans(user)
    {
      InRange(f, e);
    }
  }

  method SpanningFiles(files: seq<File>, user: Bytes) returns (tmp: seq<File>)
    ensures forall f :: f in tmp <==> f in files && f.Spans(user)
  {
    tmp := [];
    for i := 0 to |files|
      invariant forall f :: f in tmp <==> f in files[..i] && f.Spans(user)
    {
      var f := files[i];
      if CompareBytes(user, f.smallest.user) >= 0 && CompareBytes(user, f.largest.user) <= 0 {
        tmp := tmp + [f];
      }
    }
  }

  /** Files whose range misses the user key cannot matter. */
  lemma {:induction false} SpanningSuffice(files: seq<File>, tmp: seq<File>, r: Found, user: Bytes, s: SequenceNumber)
    requires forall f :: f in files ==> f.Ok()
    requires forall f :: f in tmp <==> f in files && f.Spans(user)
    ensures Answers(r, EntriesOf(tmp), user, s) ==> Answers(r, EntriesOf(files), user, s)
  {
    FilesMeet(files, user);
    assert forall e :: e in EntriesOf(files) && e.key.user == user ==> e in EntriesOf(tmp);
    assert forall e :: e in EntriesOf(tmp) ==> e in EntriesOf(files);
  }

  /** Newest file first: the first hit is newer than all that the later files hold. */
  lemma {:induction false} FirstHitStands(tmp: seq<File>, i: nat, r: Found, user: Bytes, s: SequenceNumber)
    requires OrderedByNumber(tmp) && Descending(tmp) && i < |tmp| && r.Hit?
    requires Answers(Miss, EntriesOf(tmp[..i]), user, s)
    requires Answers(r, Contents(tmp[i].entries), user, s)
    ensures Answers(r, EntriesOf(tmp), user, s)
  {
    forall f, e | f in tmp[i..] && e in f.entries && VisibleTo(e, user, s)
      ensures Tag(e.key) <= Tag(r.entry.key)
    {
      assert e in Contents(f.entries);
      if f != tmp[i] {
        assert NewerThan(Contents(tmp[i].entries), Contents(f.entries));
      }
    }
    assert tmp == tmp[..i] + tmp[i..];
    assert EntriesOf(tmp) == EntriesOf(tmp[..i]) + EntriesOf(tmp[i..]);
  }

  lemma {:induction false} MissMore(tmp: seq<File>, i: nat, user: Bytes, s: SequenceNumber)
    requires i < |tmp|
    requires Answers(Miss, EntriesOf(tmp[..i]), user, s) && Answers(Miss, Contents(tmp[i].entries), user, s)
    ensures Answers(Miss, EntriesOf(tmp[..i + 1]), user, s)
  {
    assert EntriesOf(tmp[..i + 1]) == EntriesOf(tmp[..i]) + Contents(tmp[i].entries);
  }

  /** Level 0: every file whose range holds the user key, from newest to oldest. */
  method GetLevel0(files: seq<File>, user: Bytes, s: SequenceNumber) returns (r: Found)
    requires (forall f :: f in files ==> f.Ok()) && OrderedByNumber(files)
    ensures Answers(r, EntriesOf(files), user, s)
  {
    hide Rank, Probe, EntriesOf, NewerThan, Sorted, LowerBound;
    var tmp := SpanningFiles(files, user);
    NewestFirstDescends(tmp);
    tmp := NewestFirst(tmp);
    NoFiles(user, s);
    for i := 0 to |tmp|
      invariant Answers(Miss, EntriesOf(tmp[..i]), user, s)
    {
      assert tmp[i] in tmp && tmp[i].Ok();
      r := Probe(tmp[i].entries, user, s);
      ProbeAnswers(tmp[i].entries, user, s);
      if r.Hit? {
        FirstHitStands(tmp, i, r, user, s);
        SpanningSuffice(files, tmp, r, user, s);
        return;
      }
      MissMore(tmp, i, user, s);
    }
    r := Miss;
    assert tmp[..|tmp|] == tmp;
    SpanningSuffice(files, tmp, r, user, s);
  }

  lemma {:induction false} NoFiles(user: Bytes, s: SequenceNumber)
    ensures Answers(Miss, EntriesOf([]), user, s)
  {
  }

  /** A file that starts after the user key has nothing for it. */
  lemma {:induction false} StartsLater(f: File, user: Bytes, s: SequenceNumber)
    requires f.Ok() && Rank(user) < Rank(f.smallest.user)
    ensures Probe(f.entries, user, s) == Miss
  {
    hide Rank;
    FilesMeet([f], user);
    ProbeAnswers(f.entries, user, s);
  }

  /** A sorted level: the one file binary search finds. */
  method GetSortedLevel(files: seq<File>, user: Bytes, s: SequenceNumber) returns (r: Found)
    requires Disjoint(files)
    ensures Answers(r, EntriesOf(files), user, s)
  {
    hide Rank, Probe, EntriesOf, Answers, Sorted;
    var index := FindFile(files, SeekKey(user, s));
    OneFileAnswers(files, user, s, index);
    if index >= |files| {
      return Miss;
    }
    var f := files[index];
    if CompareBytes(user, f.smallest.user) < 0 {
      // All of the file is past any data for the user key.
      StartsLater(f, user, s);
      return Miss;
    }
    return Probe(f.entries, user, s);
  }

  /** The first level with a visible entry answers; a miss means that there is no such level. */
  ghost predicate FirstAnswer(r: Found, v: Levels, user: Bytes, s: SequenceNumber) {
    if r.Miss? then Answers(Miss, EntriesAbove(v, NUM_LEVELS), user, s)
    else exists l: nat :: l < NUM_LEVELS && AnswersAt(r, v, l, user, s)
  }

  ghost predicate AnswersAt(r: Found, v: Levels, l: nat, user: Bytes, s: SequenceNumber)
    requires l < NUM_LEVELS
  {
    Answers(Miss, EntriesAbove(v, l), user, s) && Answers(r, EntriesOf(v[l]), user, s)
  }

  /** Level by level, whether or not shallower levels are newer; the files of level 0 are. */
  method GetFromVersion(v: Levels, user: Bytes, s: SequenceNumber) returns (r: Found)
    requires WellShaped(v) && OrderedByNumber(v[0])
    ensures FirstAnswer(r, v, user, s)
  {
    hide Rank, OrderedByNumber, EntriesOf;
    for level := 0 to NUM_LEVELS
      invariant Answers(Miss, EntriesAbove(v, level), user, s)
    {
      if level == 0 {
        r := GetLevel0(v[0], user, s);
      } else {
        r := GetSortedLevel(v[level], user, s);
      }
      if r.Hit? {
        assert AnswersAt(r, v, level, user, s);
        return;
      }
      OneLevelMore(v, level);
    }
    r := Miss;
  }

  lemma {:induction false} OneLevelMore(v: Levels, level: nat)
    requires level < NUM_LEVELS
    ensures EntriesAbove(v, level + 1) == EntriesAbove(v, level) + EntriesOf(v[level])
  {
  }

  /** With levels in order the first answer is that of the whole version. */
  lemma {:induction false} FirstAnswerStands(r: Found, v: Levels, user: Bytes, s: SequenceNumber)
    requires LevelsOrdered(v) && FirstAnswer(r, v, user, s)
    ensures Answers(r, EntriesAbove(v, NUM_LEVELS), user, s)
  {
    hide Answers, EntriesAbove, EntriesOf;
    if r.Hit? {
      var l: nat :| l < NUM_LEVELS && AnswersAt(r, v, l, user, s);
      assert AnswersAt(r, v, l, user, s);
      AnswerBelow(r, EntriesAbove(v, l), EntriesOf(v[l]), user, s);
      OneLevelMore(v, l);
      HitStands(r, v, l + 1, user, s);
    }
  }

  lemma {:induction false} HitStands(r: Found, v: Levels, n: nat, user: Bytes, s: SequenceNumber)
    requires n <= NUM_LEVELS && LevelsOrdered(v) && r.Hit?
    requires Answers(r, EntriesAbove(v, n), user, s)
    ensures Answers(r, EntriesAbove(v, NUM_LEVELS), user, s)
    decreases NUM_LEVELS - n
  {
    if n < NUM_LEVELS {
      AnswerBelow(r, EntriesAbove(v, n), EntriesOf(v[n]), user, s);
      assert EntriesAbove(v, n + 1) == EntriesAbove(v, n) + EntriesOf(v[n]);
      HitStands(r, v, n + 1, user, s);
    }
  }

  /** A lookup: memtable, immutable memtable, then the files, first answer wins. */
  method Get(db: Db, user: Bytes, s: SequenceNumber) returns (value: Option<Bytes>)
    requires db.Ordered()
    ensures value == Read(db.All(), user, s)
  {
    var r := Probe(db.mem, user, s);
    ProbeAnswers(db.mem, user, s);
    AnswerBelow(r, Contents(db.mem), db.Imm(), user, s);
    if r.Miss? && db.imm.Some? {
      r := Probe(db.imm.value, user, s);
      ProbeAnswers(db.imm.value, user, s);
      AnswerBelow(r, Contents(db.mem), db.Imm(), user, s);
    }
    AnswerBelow(r, Contents(db.mem) + db.Imm(), EntriesAbove(db.v, NUM_LEVELS), user, s);
    if r.Miss? {
      r := GetFromVersion(db.v, user, s);
      FirstAnswerStands(r, db.v, user, s);
      AnswerBelow(r, Contents(db.mem) + db.Imm(), EntriesAbove(db.v, NUM_LEVELS), user, s);
    }
    match r
    case Miss =>
      return None;
    case Hit(e) =>
      ReadNewest(db.All(), user, s, e);
      return Outcome(e);
  }
}
