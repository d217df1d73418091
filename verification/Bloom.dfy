/** The Bloom filter over a set of keys. */
module Bloom {
  import opened ByteStrings
  import opened Coding

  /** The hash is any function of the key; `k` probes a key, from the bits per key. */
  datatype Policy = Policy(hash: Bytes -> nat, bitsPerKey: nat, k: nat) {
    predicate Valid() { 1 <= k <= 30 }

    function Hash(key: Bytes): nat { hash(key) % TWO_32 }
  }

  /** Bit `i` of a number, and the number with that bit set. */
  function BitOf(b: nat, i: nat): bool {
    if i == 0 then b % 2 == 1 else BitOf(b / 2, i - 1)
  }

  function WithBit(b: nat, i: nat): nat {
    if i == 0 then b / 2 * 2 + 1 else WithBit(b / 2, i - 1) * 2 + b % 2
  }

  lemma {:induction false} WithBitSets(b: nat, i: nat, j: nat)
    ensures BitOf(WithBit(b, i), j) <==> j == i || BitOf(b, j)
  {
    if i > 0 && j > 0 {
      WithBitSets(b / 2, i - 1, j - 1);
    }
  }

  lemma {:induction false} WithBitFits(b: nat, i: nat, n: nat)
    requires i < n && b < Power(2, n)
    ensures WithBit(b, i) < Power(2, n)
  {
    if i > 0 {
      WithBitFits(b / 2, i - 1, n - 1);
    }
  }

  /** Bit `p` of an array of bytes. */
  function IsSet(bitmap: Bytes, p: nat): bool
    requires p < 8 * |bitmap|
  {
    BitOf(bitmap[p / 8] as nat, p % 8)
  }

  lemma {:induction false} SetsOne(bitmap: Bytes, p: nat, q: nat, b: Byte)
    requires p < 8 * |bitmap| && q < 8 * |bitmap| && b as nat == WithBit(bitmap[p / 8] as nat, p % 8)
    ensures IsSet(bitmap[p / 8 := b], q) <==> q == p || IsSet(bitmap, q)
  {
    WithBitSets(bitmap[p / 8] as nat, p % 8, q % 8);
  }

  /** Rotated right by seventeen bits. */
  function Delta(h: nat): nat
    requires h < TWO_32
  {
    h / 0x2_0000 + h % 0x2_0000 * 0x8000
  }

  /** The hash used for the `j`th probe. */
  function Probe(h: nat, j: nat): (r: nat)
    requires h < TWO_32
    ensures r < TWO_32
  {
    if j == 0 then h else (Probe(h, j - 1) + Delta(h)) % TWO_32
  }

  /** Bit `p` is one a key's probes touch, in an array of `bits` bits. */
  ghost predicate Touches(h: nat, k: nat, bits: nat, p: nat)
    requires h < TWO_32 && bits > 0
  {
    exists j | 0 <= j < k :: p == Probe(h, j) % bits
  }

  ghost predicate SomeKeyTouches(policy: Policy, keys: seq<Bytes>, bits: nat, p: nat)
    requires bits > 0
  {
    exists i | 0 <= i < |keys| :: Touches(policy.Hash(keys[i]), policy.k, bits, p)
  }

  /** The bits set are the ones the keys touch, and no others. */
  ghost predicate Exactly(policy: Policy, keys: seq<Bytes>, bitmap: Bytes, bits: nat) {
    bits > 0 && bits == 8 * |bitmap| &&
    forall p :: 0 <= p < bits ==> (IsSet(bitmap, p) <==> SomeKeyTouches(policy, keys, bits, p))
  }

  /** A filter: a bitmap of at least 64 bits, then the number of probes. */
  ghost predicate FilterOf(policy: Policy, keys: seq<Bytes>, filter: Bytes) {
    && |filter| >= 9 && filter[|filter| - 1] as nat == policy.k
    && Exactly(policy, keys, filter[..|filter| - 1], 8 * (|filter| - 1))
  }

  method CreateFilter(policy: Policy, keys: seq<Bytes>, dst: Bytes) returns (r: Bytes)
    requires policy.Valid()
    ensures |r| >= |dst| && r[..|dst|] == dst && FilterOf(policy, keys, r[|dst|..])
  {
    var bits := |keys| * policy.bitsPerKey;
    if bits < 64 {
      bits := 64;
    }
    var bytes := (bits + 7) / 8;
    bits := bytes * 8;
    var bitmap: Bytes := seq(bytes, _ => 0);
    ZeroBits();
    for i := 0 to |keys|
      invariant |bitmap| == bytes && Exactly(policy, keys[..i], bitmap, bits)
    {
      bitmap := AddProbes(bitmap, policy.Hash(keys[i]), policy.k);
      forall p | 0 <= p < bits
        ensures IsSet(bitmap, p) <==> SomeKeyTouches(policy, keys[..i + 1], bits, p)
      {
        MoreKeys(policy, keys, i, bits, p);
      }
    }
    assert keys[..|keys|] == keys;
    r := dst + bitmap + [policy.k as Byte];
    ghost var filter := r[|dst|..];
    assert filter == bitmap + [policy.k as Byte] && filter[..|filter| - 1] == bitmap;
  }

  lemma {:induction false} ZeroBits()
    ensures forall i: nat :: !BitOf(0, i)
  {
    forall i: nat
      ensures !BitOf(0, i)
    {
      ZeroBit(i);
    }
  }

  lemma {:induction false} ZeroBit(i: nat)
    ensures !BitOf(0, i)
  {
    if i > 0 {
      ZeroBit(i - 1);
    }
  }

  lemma {:induction false} MoreKeys(policy: Policy, keys: seq<Bytes>, i: nat, bits: nat, p: nat)
    requires i < |keys| && bits > 0
    ensures SomeKeyTouches(policy, keys[..i + 1], bits, p)
       <==> SomeKeyTouches(policy, keys[..i], bits, p) || Touches(policy.Hash(keys[i]), policy.k, bits, p)
  {
    hide Touches;
    assert forall n :: 0 <= n < i ==> keys[..i + 1][n] == keys[..i][n];
    assert keys[..i + 1][i] == keys[i];
  }

  method AddProbes(before: Bytes, h0: nat, k: nat) returns (bitmap: Bytes)
    requires h0 < TWO_32 && before != []
    ensures |bitmap| == |before|
    ensures forall p :: 0 <= p < 8 * |before| ==>
        (IsSet(bitmap, p) <==> IsSet(before, p) || Touches(h0, k, 8 * |before|, p))
  {
    bitmap := before;
    var bits, h, delta := 8 * |before|, h0, Delta(h0);
    for j := 0 to k
      invariant |bitmap| == |before| && h == Probe(h0, j)
      invariant forall p :: 0 <= p < bits ==> (IsSet(bitmap, p) <==> IsSet(before, p) || Touches(h0, j, bits, p))
    {
      var bitpos := h % bits;
      ghost var last := bitmap;
      WithBitFits(bitmap[bitpos / 8] as nat, bitpos % 8, 8);
      var b := WithBit(bitmap[bitpos / 8] as nat, bitpos % 8) as Byte;
      bitmap := bitmap[bitpos / 8 := b];
      forall p | 0 <= p < bits
        ensures IsSet(bitmap, p) <==> IsSet(before, p) || Touches(h0, j + 1, bits, p)
      {
        SetsOne(last, bitpos, p, b);
        MoreProbes(h0, j, bits, p);
      }
      h := (h + delta) % TWO_32;
    }
  }

  lemma {:induction false} MoreProbes(h: nat, j: nat, bits: nat, p: nat)
    requires h < TWO_32 && bits > 0
    ensures Touches(h, j + 1, bits, p) <==> Touches(h, j, bits, p) || p == Probe(h, j) % bits
  {
    hide Probe;
  }

  lemma {:induction false} ProbeTouches(h: nat, k: nat, bits: nat, j: nat)
    requires h < TWO_32 && bits > 0 && j < k
    ensures Touches(h, k, bits, Probe(h, j) % bits)
  {
    hide Probe;
  }

  lemma {:induction false} NextProbe(h: nat, j: nat)
    requires h < TWO_32
    ensures Probe(h, j + 1) == (Probe(h, j) + Delta(h)) % TWO_32 && Probe(h, 0) == h
  {
  }

  /** Whether a filter says that the key may be in its set. */
  ghost predicate MayMatch(policy: Policy, key: Bytes, filter: Bytes) {
    |filter| >= 2 &&
    var bitmap, k := filter[..|filter| - 1], filter[|filter| - 1] as nat;
    k > 30 || forall p | 0 <= p < 8 * |bitmap| :: Touches(policy.Hash(key), k, 8 * |bitmap|, p) ==> IsSet(bitmap, p)
  }

  method KeyMayMatch(policy: Policy, key: Bytes, filter: Bytes) returns (r: bool)
    ensures r <==> MayMatch(policy, key, filter)
  {
    if |filter| < 2 {
      return false;
    }
    var bitmap, k := filter[..|filter| - 1], filter[|filter| - 1] as nat;
    if k > 30 {
      return true;
    }
    hide IsSet, Touches, Probe;
    var h0 := policy.Hash(key);
    var bits, h, delta := 8 * |bitmap|, h0, Delta(h0);
    NextProbe(h0, 0);
    for j := 0 to k
      invariant h == Probe(h0, j)
      invariant forall p :: 0 <= p < bits && Touches(h0, j, bits, p) ==> IsSet(bitmap, p)
    {
      var bitpos := h % bits;
      if !IsSet(bitmap, bitpos) {
        ProbeTouches(h0, k, bits, j);
        return false;
      }
      forall p | 0 <= p < bits && Touches(h0, j + 1, bits, p)
        ensures IsSet(bitmap, p)
      {
        MoreProbes(h0, j, bits, p);
      }
      NextProbe(h0, j);
      h := (h + delta) % TWO_32;
    }
    r := true;
  }

  /** A filter denies a key exactly if one of its probes is none of those of the keys it was made from. */
  lemma {:induction false} MatchesIff(policy: Policy, keys: seq<Bytes>, filter: Bytes, key: Bytes)
    requires policy.Valid() && FilterOf(policy, keys, filter)
    ensures var bits := 8 * (|filter| - 1);
      MayMatch(policy, key, filter) <==> forall p: nat ::
        p < bits && Touches(policy.Hash(key), policy.k, bits, p) ==> SomeKeyTouches(policy, keys, bits, p)
  {
    hide IsSet, Touches, SomeKeyTouches;
  }

  /** A filter never denies a key it was made from. */
  lemma {:induction false} NoFalseNegatives(policy: Policy, keys: seq<Bytes>, filter: Bytes, i: nat)
    requires policy.Valid() && FilterOf(policy, keys, filter) && i < |keys|
    ensures MayMatch(policy, keys[i], filter)
  {
    hide IsSet, Touches;
  }
}
