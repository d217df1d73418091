/** Whether every required field was seen: the bits the decoder keeps, and its test at the end. */
module NanopbRequired {
  import opened Coding
  import opened Nanopb

  /** The decoder's `PB_MAX_REQUIRED_FIELDS`: two words of 32 bits. */
  const MAX_REQUIRED: nat := 64
  const ALL_BITS: nat := TWO_32 - 1

  /** What C leaves open here: a 32-bit shift by 32, and a read past the two words. */
  datatype Machine = Machine(shifted: nat, outside: nat)

  /** A machine that takes shift counts modulo 32. */
  const MASKING := Machine(ALL_BITS, 0)

  predicate AllRequired(d: seq<Field>, seen: set<nat>) {
    forall i :: 0 <= i < |d| && d[i].rule.Required? ==> i in seen
  }

  // ----- bits of a word

  predicate Bit(w: nat, k: nat) {
    if k == 0 then w % 2 == 1 else Bit(w / 2, k - 1)
  }

  /** `w | (1 << k)` */
  function SetBit(w: nat, k: nat): nat {
    if k == 0 then w - w % 2 + 1 else 2 * SetBit(w / 2, k - 1) + w % 2
  }

  /** `allbits >> n` */
  function ShiftedDown(n: nat, u: Machine): nat {
    if n < 32 then ALL_BITS / Power(2, n) else u.shifted
  }

  function WordAt(words: seq<nat>, i: nat, u: Machine): nat {
    if i < |words| then words[i] else u.outside
  }

  lemma {:induction false} SetsOne(w: nat, k: nat, n: nat)
    requires w < Power(2, n) && k < n
    ensures SetBit(w, k) < Power(2, n) && forall j: nat :: Bit(SetBit(w, k), j) <==> j == k || Bit(w, j)
  {
    var w' := SetBit(w, k);
    assert Power(2, n) == 2 * Power(2, n - 1);
    if k > 0 {
      SetsOne(w / 2, k - 1, n - 1);
      assert w' / 2 == SetBit(w / 2, k - 1) && w' % 2 == w % 2;
    } else {
      assert w' / 2 == w / 2 && w' % 2 == 1;
    }
    forall j: nat
      ensures Bit(w', j) <==> j == k || Bit(w, j)
    {
      if j > 0 && k > 0 {
        assert Bit(SetBit(w / 2, k - 1), j - 1) <==> j - 1 == k - 1 || Bit(w / 2, j - 1);
      }
    }
  }

  lemma {:induction false} NoBits(k: nat)
    ensures !Bit(0, k)
  {
    if k > 0 {
      NoBits(k - 1);
    }
  }

  /** Of the `n` low places of the word just the first `r` have ones. */
  ghost predicate OnesBelow(w: nat, n: nat, r: nat) {
    forall k: nat :: k < n ==> (Bit(w, k) <==> k < r)
  }

  /** That is one number. */
  lemma {:induction false} LowOnes(w: nat, n: nat, r: nat)
    requires w < Power(2, n) && r <= n
    ensures w == Power(2, r) - 1 <==> OnesBelow(w, n, r)
    decreases n
  {
    if n > 0 {
      var r' := if r == 0 then 0 else r - 1;
      LowOnes(w / 2, n - 1, r');
      OnesHalved(w, n, r);
      assert r > 0 ==> Power(2, r) == 2 * Power(2, r');
      assert w == 2 * (w / 2) + w % 2;
    }
  }

  lemma {:induction false} OnesHalved(w: nat, n: nat, r: nat)
    requires 0 < n && r <= n
    ensures OnesBelow(w, n, r) <==> (w % 2 == 1 <==> 0 < r) && OnesBelow(w / 2, n - 1, if r == 0 then 0 else r - 1)
  {
    var r' := if r == 0 then 0 else r - 1;
    assert Bit(w, 0) <==> w % 2 == 1;
    if OnesBelow(w, n, r) {
      forall k: nat | k < n - 1
        ensures Bit(w / 2, k) <==> k < r'
      {
        assert Bit(w, k + 1) <==> Bit(w / 2, k);
      }
    }
    if (w % 2 == 1 <==> 0 < r) && OnesBelow(w / 2, n - 1, r') {
      forall k: nat | k < n
        ensures Bit(w, k) <==> k < r
      {
        assert k > 0 ==> (Bit(w, k) <==> Bit(w / 2, k - 1));
      }
    }
  }

  lemma {:induction false} Shifts(r: nat, u: Machine)
    requires 0 < r < 32
    ensures ShiftedDown(32 - r, u) == Power(2, r) - 1
  {
    PowerSum(r, 32 - r);
    FullWord();
    hide Power;
    Quotient(Power(2, r), Power(2, 32 - r));
  }

  lemma {:induction false} Quotient(p: nat, q: nat)
    requires p > 0 && q > 0
    ensures p * q > 0 && (p * q - 1) / q == p - 1
  {
    assert p * q - 1 == (p - 1) * q + (q - 1);
    Divides(p - 1, q - 1, q);
  }

  lemma {:induction false} FullWord()
    ensures Power(2, 32) == ALL_BITS + 1
  {
    assert Power(2, 8) == 256;
    PowerSum(8, 8);
    PowerSum(16, 16);
  }

  lemma {:induction false} PowerSum(a: nat, b: nat)
    ensures Power(2, a + b) == Power(2, a) * Power(2, b)
  {
    if a > 0 {
      PowerSum(a - 1, b);
      assert Power(2, a + b) == 2 * (Power(2, a - 1) * Power(2, b)) == (2 * Power(2, a - 1)) * Power(2, b);
    }
  }

  lemma {:induction false} Divides(a: nat, b: nat, q: nat)
    requires b < q
    ensures (a * q + b) / q == a
  {
    var n := a * q + b;
    var d := n / q;
    assert d * q <= n < d * q + q;
    StepApart(d, a, q);
    StepApart(a, d, q);
  }

  // ----- bits of fields

  /** A required field is known by the number of required fields before it. */
  ghost function SeenBits(d: seq<Field>, seen: set<nat>): set<nat> {
    set i | 0 <= i < |d| && d[i].rule.Required? && i in seen :: RequiredBefore(d, i)
  }

  /** The two words have the bits of the fields seen, as far as there is room for them. */
  ghost predicate Represents(words: seq<nat>, d: seq<Field>, seen: set<nat>) {
    && |words| == 2 && words[0] < Power(2, 32) && words[1] < Power(2, 32)
    && (forall k :: 0 <= k < 32 ==> (Bit(words[0], k) <==> k in SeenBits(d, seen)))
    && (forall k :: 0 <= k < 32 ==> (Bit(words[1], k) <==> k + 32 in SeenBits(d, seen)))
  }

  function Marked(words: seq<nat>, index: nat): seq<nat>
    requires |words| == 2
  {
    if index < MAX_REQUIRED then words[index / 32 := SetBit(words[index / 32], index % 32)] else words
  }

  lemma {:induction false} NothingSeen(d: seq<Field>)
    ensures Represents([0, 0], d, {})
  {
    forall k | 0 <= k < 32
      ensures !Bit(0, k)
    {
      NoBits(k);
    }
  }

  /** Setting the bit of a required field, if there is room, keeps the words in step. */
  lemma {:induction false} OneSeen(words: seq<nat>, d: seq<Field>, seen: set<nat>, i: nat)
    requires Represents(words, d, seen) && i < |d|
    ensures Represents(if d[i].rule.Required? then Marked(words, RequiredBefore(d, i)) else words, d, seen + {i})
  {
    hide Bit, SetBit, Power;
    var index := RequiredBefore(d, i);
    if d[i].rule.Required? {
      assert SeenBits(d, seen + {i}) == SeenBits(d, seen) + {index};
      if index < MAX_REQUIRED {
        SetsOne(words[index / 32], index % 32, 32);
      }
    } else {
      assert SeenBits(d, seen + {i}) == SeenBits(d, seen);
    }
  }

  lemma {:induction false} BeforeAscends(d: seq<Field>, i: nat, j: nat)
    requires i <= j <= |d|
    ensures RequiredBefore(d, i) <= RequiredBefore(d, j)
    ensures i < j && d[i].rule.Required? ==> RequiredBefore(d, i) < RequiredBefore(d, j)
  {
    if i < j {
      BeforeAscends(d, i, j - 1);
    }
  }

  lemma {:induction false} Numbered(d: seq<Field>, n: nat, k: nat) returns (i: nat)
    requires n <= |d| && k < RequiredBefore(d, n)
    ensures i < n && d[i].rule.Required? && RequiredBefore(d, i) == k
  {
    if d[n - 1].rule.Required? && RequiredBefore(d, n - 1) == k {
      i := n - 1;
    } else {
      i := Numbered(d, n - 1, k);
    }
  }

  /** All required fields were seen exactly if all their numbers were. */
  lemma {:induction false} AllNumbers(d: seq<Field>, seen: set<nat>)
    ensures forall k :: k in SeenBits(d, seen) ==> 0 <= k < RequiredCount(d)
    ensures AllRequired(d, seen) <==> forall k :: 0 <= k < RequiredCount(d) ==> k in SeenBits(d, seen)
  {
    forall i | 0 <= i < |d| && d[i].rule.Required?
      ensures RequiredBefore(d, i) < RequiredCount(d)
    {
      BeforeAscends(d, i, |d|);
    }
    if AllRequired(d, seen) {
      forall k | 0 <= k < RequiredCount(d)
        ensures k in SeenBits(d, seen)
      {
        var i := Numbered(d, |d|, k);
      }
    }
    if forall k :: 0 <= k < RequiredCount(d) ==> k in SeenBits(d, seen) {
      forall i | 0 <= i < |d| && d[i].rule.Required?
        ensures i in seen
      {
        var k := RequiredBefore(d, i);
        assert k in SeenBits(d, seen);
        var j :| 0 <= j < |d| && d[j].rule.Required? && j in seen && RequiredBefore(d, j) == k;
        if i < j {
          BeforeAscends(d, i, j);
        } else {
          BeforeAscends(d, j, i);
        }
      }
    }
  }

  // ----- the test at the end

  /** The whole words, then the remaining bits. */
  predicate Passes(words: seq<nat>, count: nat, u: Machine) {
    count == 0 || (
      && (forall i :: 0 <= i < count / 32 ==> WordAt(words, i, u) == ALL_BITS)
      && WordAt(words, count / 32, u) == ShiftedDown(32 - count % 32, u))
  }

  method Check(words: seq<nat>, count: nat, u: Machine) returns (ok: bool)
    ensures ok <==> Passes(words, count, u)
  {
    if count > 0 {
      for i := 0 to count / 32
        invariant forall k :: 0 <= k < i ==> WordAt(words, k, u) == ALL_BITS
      {
        if WordAt(words, i, u) != ALL_BITS {
          return false;
        }
      }
      if WordAt(words, count / 32, u) != ShiftedDown(32 - count % 32, u) {
        return false;
      }
    }
    ok := true;
  }

  /** With a count the test is made for, it decides whether all required fields were seen. */
  lemma {:induction false} PassesIfSeen(words: seq<nat>, d: seq<Field>, seen: set<nat>, u: Machine)
    requires Represents(words, d, seen) && CountOk(RequiredCount(d))
    ensures Passes(words, RequiredCount(d), u) <==> AllRequired(d, seen)
  {
    hide Bit, Power, SeenBits, RequiredBefore, AllRequired, ShiftedDown, OnesBelow;
    var n := RequiredCount(d);
    AllNumbers(d, seen);
    FullWord();
    if n > 0 {
      var r := n % 32;
      Shifts(r, u);
      if n < 32 {
        LowOnes(words[0], 32, r);
        LowBits(words[0], 0, n, r, SeenBits(d, seen));
      } else {
        LowOnes(words[0], 32, 32);
        LowOnes(words[1], 32, r);
        LowBits(words[0], 0, n, 32, SeenBits(d, seen));
        LowBits(words[1], 32, n, r, SeenBits(d, seen));
        assert n / 32 == 1 && WordAt(words, 0, u) == words[0] && WordAt(words, 1, u) == words[1];
      }
    }
  }

  /** The places of one word that should be set, in terms of the numbers they stand for. */
  lemma {:induction false} LowBits(w: nat, base: nat, n: nat, r: nat, bits: set<nat>)
    requires forall k :: 0 <= k < 32 ==> (Bit(w, k) <==> k + base in bits)
    requires (forall k :: k in bits ==> 0 <= k < n) && r <= 32 && r == (if n - base < 32 then n - base else 32)
    ensures OnesBelow(w, 32, r) <==> forall k :: base <= k < base + r ==> k in bits
  {
    hide Bit;
    if forall k :: base <= k < base + r ==> k in bits {
      forall k: nat | k < 32
        ensures Bit(w, k) <==> k < r
      {
        assert k < r ==> k + base in bits;
      }
    }
    if OnesBelow(w, 32, r) {
      forall k | base <= k < base + r
        ensures k in bits
      {
        assert Bit(w, k - base);
      }
    }
  }

  /** With any other count, a machine that masks shift counts refuses every message. */
  lemma {:induction false} NeverPasses(words: seq<nat>, d: seq<Field>, seen: set<nat>)
    requires Represents(words, d, seen) && !CountOk(RequiredCount(d))
    ensures !Passes(words, RequiredCount(d), MASKING)
  {
    var n := RequiredCount(d);
    AllNumbers(d, seen);
    if n == 32 {
      FullWord();
      hide Power, SeenBits, RequiredBefore, AllRequired;
      LowOnes(words[1], 32, 32);
      assert Bit(words[1], 0) ==> 32 in SeenBits(d, seen);
    } else if n < 96 {
      if n > 64 {
        Shifts(n % 32, MASKING);
        assert Power(2, n % 32) == 2 * Power(2, n % 32 - 1);
      }
    } else {
      assert WordAt(words, 2, MASKING) == 0;
    }
  }

  /** All fields seen can be told to the decoder. */
  lemma {:induction false} Told(d: seq<Field>, n: nat) returns (words: seq<nat>, seen: set<nat>)
    requires n <= |d|
    ensures Represents(words, d, seen) && forall i :: 0 <= i < n ==> i in seen
  {
    if n == 0 {
      words, seen := [0, 0], {};
      NothingSeen(d);
    } else {
      hide Represents;
      var w, s := Told(d, n - 1);
      OneSeen(w, d, s, n - 1);
      TwoWords(w, d, s);
      words, seen := if d[n - 1].rule.Required? then Marked(w, RequiredBefore(d, n - 1)) else w, s + {n - 1};
    }
  }

  lemma {:induction false} TwoWords(words: seq<nat>, d: seq<Field>, seen: set<nat>)
    requires Represents(words, d, seen)
    ensures |words| == 2
  {
  }

  /** On every machine, whatever was seen, the test says whether all required fields were. */
  ghost predicate TestIsRight(d: seq<Field>) {
    forall words, seen, u {:trigger Represents(words, d, seen), Passes(words, RequiredCount(d), u)} ::
      Represents(words, d, seen) ==> (Passes(words, RequiredCount(d), u) <==> AllRequired(d, seen))
  }

  /** It does exactly for descriptors with no required field, or with fewer than 64 of them and
      not 32. */
  lemma {:induction false} TestIsRightIff(d: seq<Field>)
    ensures TestIsRight(d) <==> CountOk(RequiredCount(d))
  {
    hide Represents, Passes, AllRequired, RequiredBefore;
    if CountOk(RequiredCount(d)) {
      forall words, seen, u | Represents(words, d, seen)
        ensures Passes(words, RequiredCount(d), u) <==> AllRequired(d, seen)
      {
        PassesIfSeen(words, d, seen, u);
      }
    } else {
      var words, seen := Told(d, |d|);
      NeverPasses(words, d, seen);
      SeenAll(d, seen);
      assert Represents(words, d, seen) && !Passes(words, RequiredCount(d), MASKING);
    }
  }

  lemma {:induction false} SeenAll(d: seq<Field>, seen: set<nat>)
    requires forall i :: 0 <= i < |d| ==> i in seen
    ensures AllRequired(d, seen)
  {
  }

  /** Thirty-two required numbers. */
  function ThirtyTwo(n: nat): (d: seq<Field>)
    ensures |d| == n && forall i :: 0 <= i < n ==> d[i] == Field(i + 1, UnsignedVarint, Required, 4, [], Int(0))
  {
    seq(n, i requires 0 <= i < n => Field(i + 1, UnsignedVarint, Required, 4, [], Int(0)))
  }

  lemma {:induction false} RequiredOnly(n: nat, i: nat)
    requires i <= n
    ensures RequiredBefore(ThirtyTwo(n), i) == i
  {
    if i > 0 {
      RequiredOnly(n, i - 1);
    }
  }

  /** With 32 required fields, a machine that masks shift counts finds one missing in every message. */
  lemma {:induction false} ThirtyTwoNeverPass(words: seq<nat>, seen: set<nat>)
    requires Represents(words, ThirtyTwo(32), seen)
    ensures RequiredCount(ThirtyTwo(32)) == 32 && !Passes(words, 32, MASKING)
  {
    RequiredOnly(32, 32);
    NeverPasses(words, ThirtyTwo(32), seen);
  }
}
