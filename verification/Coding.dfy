/** Fixed-width and variable-length integers, and strings with a length prefix. */
module Coding {
  import opened ByteStrings
  import opened Reads

  const TWO_32: nat := 0x1_0000_0000
  const TWO_64: nat := 0x1_0000_0000_0000_0000

  /** The `n` low bytes of a number, lowest first. */
  function Fixed(v: nat, n: nat): (b: Bytes)
    ensures |b| == n
  {
    if n == 0 then [] else [(v % 256) as Byte] + Fixed(v / 256, n - 1)
  }

  function FixedValue(b: Bytes): nat {
    if b == [] then 0 else b[0] as nat + 256 * FixedValue(b[1..])
  }

  function Power(base: nat, n: nat): (p: nat)
    ensures base > 0 ==> p > 0
  {
    if n == 0 then 1 else base * Power(base, n - 1)
  }

  /** Reading a fixed-width number gives back what was written, modulo the width. */
  lemma {:induction false} FixedRoundTrip(v: nat, n: nat)
    requires v < Power(256, n)
    ensures FixedValue(Fixed(v, n)) == v
  {
    if n > 0 {
      var p := Power(256, n - 1);
      assert v < 256 * p;
      assert v / 256 < p;
      FixedRoundTrip(v / 256, n - 1);
      assert Fixed(v, n)[1..] == Fixed(v / 256, n - 1);
    }
  }

  /** A fixed-width number has one encoding. */
  lemma {:induction false} FixedValueReturns(b: Bytes)
    ensures FixedValue(b) < Power(256, |b|) && Fixed(FixedValue(b), |b|) == b
  {
    if b != [] {
      FixedValueReturns(b[1..]);
      assert FixedValue(b) % 256 == b[0] as nat && FixedValue(b) / 256 == FixedValue(b[1..]);
      assert b == [b[0]] + b[1..];
    }
  }

  function EncodeFixed32(v: nat): (b: Bytes)
    requires v < TWO_32
    ensures |b| == 4 && FixedValue(b) == v
  {
    assert Power(256, 4) == TWO_32;
    FixedRoundTrip(v, 4);
    Fixed(v, 4)
  }

  function EncodeFixed64(v: nat): (b: Bytes)
    requires v < TWO_64
    ensures |b| == 8 && FixedValue(b) == v
  {
    assert Power(256, 8) == TWO_64;
    FixedRoundTrip(v, 8);
    Fixed(v, 8)
  }

  /** Seven bits a byte, lowest first; the high bit says that more follow. */
  function Varint(v: nat): (b: Bytes)
    ensures b != []
  {
    if v < 128 then [v as Byte] else [(v % 128 + 128) as Byte] + Varint(v / 128)
  }

  datatype Parsed<+T> = Parsed(value: T, rest: Bytes)

  /** The number at the start of the input, if it ends within `most` bytes. */
  function ReadVarint(input: Bytes, most: nat): (r: Option<Parsed<nat>>)
    ensures r.Some? ==> |r.value.rest| < |input|
    ensures r.Some? ==> r.value.rest == input[|input| - |r.value.rest|..]
  {
    if most == 0 || input == [] then None
    else if input[0] < 128 then Some(Parsed(input[0] as nat, input[1..]))
    else
      match ReadVarint(input[1..], most - 1)
      case None => None
      case Some(p) => Some(Parsed((input[0] as nat - 128) + 128 * p.value, p.rest))
  }

  lemma {:induction false} Shrinks(v: nat, most: nat)
    requires 128 <= v < Power(128, most) && 0 < most
    ensures 1 < most && v / 128 < Power(128, most - 1)
  {
    assert Power(128, most) == 128 * Power(128, most - 1);
    assert Power(128, 0) == 1;
  }

  lemma {:induction false} VarintRoundTrip(v: nat, most: nat, rest: Bytes)
    requires 0 < most && v < Power(128, most)
    ensures ReadVarint(Varint(v) + rest, most) == Some(Parsed(v, rest))
  {
    hide Power;
    var b := Varint(v) + rest;
    if v < 128 {
      assert b[1..] == rest;
    } else {
      Shrinks(v, most);
      VarintRoundTrip(v / 128, most - 1, rest);
      assert b[1..] == Varint(v / 128) + rest;
    }
  }

  /** A varint cut short is not read as a number. */
  lemma {:induction false} VarintCutShort(v: nat, most: nat, n: nat)
    requires n < |Varint(v)|
    ensures ReadVarint(Varint(v)[..n], most) == None
  {
    if n > 0 {
      assert v >= 128;
      VarintCutShort(v / 128, if most > 0 then most - 1 else 0, n - 1);
      assert Varint(v)[..n][1..] == Varint(v / 128)[..n - 1];
    }
  }

  /** What the 32-bit reader returns: five bytes at most, bits beyond the width lost. */
  function GetVarint32(input: Bytes): (r: Option<Parsed<nat>>)
    ensures r.Some? ==> r.value.value < TWO_32 && |r.value.rest| < |input|
    ensures r.Some? ==> r.value.rest == input[|input| - |r.value.rest|..]
  {
    match ReadVarint(input, 5)
    case None => None
    case Some(p) => Some(Parsed(p.value % TWO_32, p.rest))
  }

  function GetVarint64(input: Bytes): (r: Option<Parsed<nat>>)
    ensures r.Some? ==> r.value.value < TWO_64 && |r.value.rest| < |input|
  {
    match ReadVarint(input, 10)
    case None => None
    case Some(p) => Some(Parsed(p.value % TWO_64, p.rest))
  }

  lemma {:induction false} FiveSevens()
    ensures Power(128, 5) == 0x8_0000_0000
  {
  }

  lemma {:induction false} TenSevens()
    ensures Power(128, 10) == 0x40_0000_0000_0000_0000
  {
    FiveSevens();
    assert Power(128, 6) == 0x40000000000;
    assert Power(128, 7) == 0x2000000000000;
    assert Power(128, 8) == 0x100000000000000;
    assert Power(128, 9) == 0x8000000000000000;
  }

  lemma {:induction false} Varint32RoundTrip(v: nat, rest: Bytes)
    requires v < TWO_32
    ensures GetVarint32(Varint(v) + rest) == Some(Parsed(v, rest))
  {
    hide Power, ReadVarint, Varint;
    FiveSevens();
    VarintRoundTrip(v, 5, rest);
  }

  lemma {:induction false} Varint64RoundTrip(v: nat, rest: Bytes)
    requires v < TWO_64
    ensures GetVarint64(Varint(v) + rest) == Some(Parsed(v, rest))
  {
    hide Power, ReadVarint, Varint;
    TenSevens();
    VarintRoundTrip(v, 10, rest);
  }

  lemma {:induction false} VarintUnfolds(v: nat)
    ensures Varint(v) == if v < 128 then [v as Byte] else [(v % 128 + 128) as Byte] + Varint(v / 128)
  {
  }

  /** The unrolled 32-bit encoder. */
  function EncodeVarint32(v: nat): (b: Bytes)
    requires v < TWO_32
    ensures b == Varint(v)
  {
    VarintUnfolds(v / 128 / 128 / 128);
    VarintUnfolds(v / 128 / 128);
    VarintUnfolds(v / 128);
    if v < 0x80 then [v as Byte]
    else if v < 0x4000 then [(v % 128 + 128) as Byte, (v / 128) as Byte]
    else if v < 0x20_0000 then
      [(v % 128 + 128) as Byte, (v / 128 % 128 + 128) as Byte, (v / 128 / 128) as Byte]
    else if v < 0x1000_0000 then
      [(v % 128 + 128) as Byte, (v / 128 % 128 + 128) as Byte, (v / 128 / 128 % 128 + 128) as Byte,
       (v / 128 / 128 / 128) as Byte]
    else
      [(v % 128 + 128) as Byte, (v / 128 % 128 + 128) as Byte, (v / 128 / 128 % 128 + 128) as Byte,
       (v / 128 / 128 / 128 % 128 + 128) as Byte, (v / 128 / 128 / 128 / 128) as Byte]
  }

  method EncodeVarint64(v: nat) returns (b: Bytes)
    requires v < TWO_64
    ensures b == Varint(v)
  {
    b := [];
    var left := v;
    while left >= 128
      invariant b + Varint(left) == Varint(v)
    {
      b := b + [(left % 128 + 128) as Byte];
      left := left / 128;
    }
    b := b + [left as Byte];
  }

  /** The loop of the 32- and 64-bit readers; each byte enters the result shifted seven bits
      further, and what leaves the word is lost. */
  method GetVarintPtr(input: Bytes, most: nat, width: nat) returns (r: Option<Parsed<nat>>)
    requires width > 0
    ensures r == match ReadVarint(input, most) case None => None case Some(p) => Some(Parsed(p.value % width, p.rest))
  {
    Accumulates(input, most, 1, 0);
    var result: nat, unit: nat, i := 0, 1, 0;
    ghost var whole: nat := 0;
    while i < most && i < |input|
      invariant i <= most && i <= |input|
      invariant Accumulated(input, most, 1, 0) == Accumulated(input[i..], most - i, unit, whole)
      invariant result == whole % width
    {
      var b := input[i];
      var chunk := Chunk(b, unit);
      AddWrapped(whole, chunk, width);
      result := (result + chunk) % width;
      assert input[i..][1..] == input[i + 1..];
      i := i + 1;
      whole := whole + chunk;
      if b < 128 {
        return Some(Parsed(result, input[i..]));
      }
      unit := 128 * unit;
    }
    return None;
  }

  /** The seven bits a byte brings, in units of its place. */
  function Chunk(b: Byte, unit: nat): nat {
    (b as nat % 128) * unit
  }

  /** Reading with the sum so far and the unit of the next byte. */
  ghost function Accumulated(input: Bytes, most: nat, unit: nat, sum: nat): Option<Parsed<nat>> {
    if most == 0 || input == [] then None
    else if input[0] < 128 then Some(Parsed(sum + Chunk(input[0], unit), input[1..]))
    else Accumulated(input[1..], most - 1, 128 * unit, sum + Chunk(input[0], unit))
  }

  ghost function Scaled(sum: nat, unit: nat, r: Option<Parsed<nat>>): Option<Parsed<nat>> {
    match r
    case None => None
    case Some(p) => Some(Parsed(sum + unit * p.value, p.rest))
  }

  lemma {:induction false} Accumulates(input: Bytes, most: nat, unit: nat, sum: nat)
    ensures Accumulated(input, most, unit, sum) == Scaled(sum, unit, ReadVarint(input, most))
    decreases most
  {
    hide Chunk;
    if most > 0 && input != [] {
      var b := input[0];
      ScaledStep(sum, unit, b, 0);
      if b >= 128 {
        Accumulates(input[1..], most - 1, 128 * unit, sum + Chunk(b, unit));
        var r := ReadVarint(input[1..], most - 1);
        if r.Some? {
          ScaledStep(sum, unit, b, r.value.value);
        }
      }
    }
  }

  lemma {:induction false} ScaledStep(sum: nat, unit: nat, b: Byte, v: nat)
    ensures sum + unit * (b as nat % 128 + 128 * v) == sum + Chunk(b, unit) + 128 * unit * v
    ensures b < 128 ==> sum + unit * b as nat == sum + Chunk(b, unit)
  {
    Distribute(unit, b as nat % 128, v);
  }

  lemma {:induction false} Distribute(unit: nat, digit: nat, v: nat)
    ensures unit * (digit + 128 * v) == digit * unit + 128 * unit * v
  {
  }

  lemma {:induction false} AddWrapped(a: nat, b: nat, width: nat)
    requires width > 0
    ensures (a % width + b) % width == (a + b) % width
  {
    var q, x := a / width, a % width + b;
    var p, r := x / width, x % width;
    assert a + b == q * width + (p * width + r) == (q + p) * width + r;
    Remainder(q + p, r, width);
  }

  lemma {:induction false} Remainder(q: nat, r: nat, width: nat)
    requires r < width
    ensures (q * width + r) % width == r
  {
    var n := q * width + r;
    var d := n / width;
    assert d * width <= n < d * width + width;
    StepApart(d, q, width);
    StepApart(q, d, width);
  }

  lemma {:induction false} StepApart(a: nat, b: nat, width: nat)
    ensures a < b ==> a * width + width <= b * width
    decreases b
  {
    if a < b {
      StepApart(a, b - 1, width);
      assert b * width == (b - 1) * width + width;
    }
  }

  // ----- length-prefixed strings

  function LengthPrefixed(s: Bytes): Bytes {
    Varint(|s|) + s
  }

  function GetLengthPrefixedSlice(input: Bytes): (r: Option<Parsed<Bytes>>)
    ensures r.Some? ==> |r.value.rest| < |input|
  {
    match GetVarint32(input)
    case None => None
    case Some(p) =>
      if |p.rest| < p.value then None
      else Some(Parsed(p.rest[..p.value], p.rest[p.value..]))
  }

  lemma {:induction false} LengthPrefixedRoundTrip(s: Bytes, rest: Bytes)
    requires |s| < TWO_32
    ensures GetLengthPrefixedSlice(LengthPrefixed(s) + rest) == Some(Parsed(s, rest))
  {
    Varint32RoundTrip(|s|, s + rest);
    assert LengthPrefixed(s) + rest == Varint(|s|) + (s + rest);
  }
}
