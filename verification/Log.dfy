/** The log format: records cut into fragments that never straddle a 32 KB block. */
module Log {
  import opened ByteStrings
  import opened Crc32c

  const BLOCK_SIZE: nat := 32768
  const HEADER_SIZE: nat := 7

  const ZERO: nat := 0
  const FULL: nat := 1
  const FIRST: nat := 2
  const MIDDLE: nat := 3
  const LAST: nat := 4
  /** Results of reading a fragment that are not record types; a damaged type byte can
      still hold these values. */
  const EOF: nat := 5
  const BAD_RECORD: nat := 6

  function FragmentType(begin: bool, end: bool): (t: nat)
    ensures FULL <= t <= LAST
  {
    if begin then (if end then FULL else FIRST) else (if end then LAST else MIDDLE)
  }

  /** Checksum, length and type, then the data. */
  function Fragment(t: nat, data: Bytes): (b: Bytes)
    requires t < 256 && |data| <= 0xffff
    ensures |b| == HEADER_SIZE + |data|
  {
    Stamp([t as Byte] + data) + [(|data| % 256) as Byte, (|data| / 256) as Byte, t as Byte] + data
  }

  function Zeros(n: nat): (b: Bytes)
    ensures |b| == n
  {
    seq(n, _ => 0)
  }

  /** Trailer to fill before the next fragment when a header no longer fits the block. */
  function Padding(at: nat): (n: nat)
    ensures n < HEADER_SIZE
    ensures BLOCK_SIZE - (at + n) % BLOCK_SIZE >= HEADER_SIZE
  {
    var leftover := BLOCK_SIZE - at % BLOCK_SIZE;
    if leftover < HEADER_SIZE then leftover else 0
  }

  /** Data the next fragment can hold. */
  function Available(at: nat): (n: nat)
    ensures n <= 0xffff
  {
    BLOCK_SIZE - (at + Padding(at)) % BLOCK_SIZE - HEADER_SIZE
  }

  function FragmentLength(at: nat, left: Bytes): (n: nat)
    ensures n <= |left| && n <= Available(at)
    ensures n < |left| ==> n == Available(at)
  {
    if |left| < Available(at) then |left| else Available(at)
  }

  /** The bytes that end a record of which `left` is still to write, at file position `at`. */
  function Written(at: nat, left: Bytes, begin: bool): (b: Bytes)
    ensures |b| >= HEADER_SIZE
    decreases |left|, if Available(at) == 0 then 1 else 0
  {
    var n := FragmentLength(at, left);
    var here := NextFragment(at, left, begin);
    if n == |left| then here else here + Written(at + |here|, left[n..], false)
  }

  /** The next fragment, with the padding in front of it. */
  function NextFragment(at: nat, left: Bytes, begin: bool): (b: Bytes)
    ensures |b| == Padding(at) + HEADER_SIZE + FragmentLength(at, left)
  {
    var n := FragmentLength(at, left);
    Zeros(Padding(at)) + Fragment(FragmentType(begin, n == |left|), left[..n])
  }

  /** The log of these records, from file position `at` on. */
  function LogOf(at: nat, records: seq<Bytes>): Bytes
    decreases |records|
  {
    if records == [] then []
    else
      var w := Written(at, records[0], true);
      w + LogOf(at + |w|, records[1..])
  }

  lemma {:induction false} WrittenInSteps(dest: Bytes, left: Bytes, begin: bool)
    ensures var n, here := FragmentLength(|dest|, left), NextFragment(|dest|, left, begin);
      dest + Written(|dest|, left, begin) ==
        if n == |left| then dest + here else (dest + here) + Written(|dest + here|, left[n..], false)
  {
    var n, here := FragmentLength(|dest|, left), NextFragment(|dest|, left, begin);
    if n < |left| {
      Regrouped(dest, here, Written(|dest + here|, left[n..], false));
    }
  }

  lemma {:induction false} Regrouped(a: Bytes, b: Bytes, c: Bytes)
    ensures a + (b + c) == (a + b) + c
  {
  }

  class Writer {
    /** The file written so far. */
    var dest: Bytes
    /** Current offset in block. */
    var blockOffset: nat

    ghost predicate Valid()
      reads this
    {
      blockOffset <= BLOCK_SIZE && blockOffset % BLOCK_SIZE == |dest| % BLOCK_SIZE
    }

    constructor ()
      ensures Valid() && dest == []
    {
      dest, blockOffset := [], 0;
    }

    /** Cuts a record into fragments. Even an empty record gets one. */
    method AddRecord(slice: Bytes)
      requires Valid()
      modifies this
      ensures Valid() && dest == old(dest) + Written(|old(dest)|, slice, true)
    {
      hide Written, NextFragment;
      var left, begin, more := slice, true, true;
      while more
        invariant Valid() && (!more ==> dest == old(dest) + Written(|old(dest)|, slice, true))
        invariant more ==> dest + Written(|dest|, left, begin) == old(dest) + Written(|old(dest)|, slice, true)
        decreases more, |left|, if Available(|dest|) == 0 then 1 else 0
      {
        WrittenInSteps(dest, left, begin);
        var n := AddFragment(left, begin);
        left, begin := left[n..], false;
        more := left != [];
      }
    }

    /** One turn of the loop: fills the trailer if a header no longer fits, then emits as much
        of what is left as the block can hold. */
    method AddFragment(left: Bytes, begin: bool) returns (n: nat)
      requires Valid()
      modifies this
      ensures Valid() && n == FragmentLength(|old(dest)|, left)
      ensures dest == old(dest) + NextFragment(|old(dest)|, left, begin)
    {
      hide Fragment, Zeros;
      var leftover := BLOCK_SIZE - blockOffset;
      if leftover < HEADER_SIZE {
        if leftover > 0 {
          dest := dest + Zeros(leftover);
        }
        blockOffset := 0;
      }
      assert dest == old(dest) + Zeros(Padding(|old(dest)|));
      var avail := BLOCK_SIZE - blockOffset - HEADER_SIZE;
      n := if |left| < avail then |left| else avail;
      EmitPhysicalRecord(FragmentType(begin, |left| == n), left[..n]);
    }

    method EmitPhysicalRecord(t: nat, data: Bytes)
      requires Valid() && t < 256 && blockOffset + HEADER_SIZE + |data| <= BLOCK_SIZE
      modifies this
      ensures Valid() && dest == old(dest) + Fragment(t, data)
      ensures blockOffset == old(blockOffset) + HEADER_SIZE + |data|
    {
      hide Stamp;
      var header := Stamp([t as Byte] + data) + [(|data| % 256) as Byte, (|data| / 256) as Byte, t as Byte];
      dest := dest + header;
      dest := dest + data;
      blockOffset := blockOffset + HEADER_SIZE + |data|;
    }
  }
}
