/** Byte strings and the order `Slice::compare` puts on them. */
module ByteStrings {
  newtype Byte = x: int | 0 <= x < 256

  type Bytes = seq<Byte>

  /** The string read as a fraction in base 257, digit `b + 1` for byte `b`, so
      that a proper prefix is smaller than its extensions. */
  ghost function Fraction(s: Bytes): (r: real)
    ensures 0.0 <= r < 1.0
    ensures s != [] ==> 0.0 < r
  {
    if s == [] then 0.0 else (s[0] as int as real + 1.0 + Fraction(s[1..])) / 257.0
  }

  lemma {:induction false} FractionInjective(a: Bytes, b: Bytes)
    requires Fraction(a) == Fraction(b)
    ensures a == b
  {
    if a != [] && b != [] {
      var x, y := a[0] as int, b[0] as int;
      var s, t := Fraction(a[1..]), Fraction(b[1..]);
      assert x as real + s == y as real + t;
      assert -1.0 < (x - y) as real < 1.0;
      FractionInjective(a[1..], b[1..]);
      assert a == [a[0]] + a[1..] && b == [b[0]] + b[1..];
    }
  }

  /** The byte string with a given fraction, if there is one. */
  ghost function Named(r: real): Bytes {
    if exists s :: Fraction(s) == r then var s :| Fraction(s) == r; s else []
  }

  /** An order embedding of byte strings into the reals. Comparing ranks is
      comparing strings, so the order is total without further lemmas. */
  ghost function Rank(s: Bytes): (r: real)
    ensures Named(r) == s
  {
    FractionInjective(Named(Fraction(s)), s);
    Fraction(s)
  }

  /** The bytewise comparator: the first differing byte decides, then length. */
  function CompareBytes(a: Bytes, b: Bytes): (r: int)
    ensures r < 0 <==> Rank(a) < Rank(b)
    ensures r > 0 <==> Rank(a) > Rank(b)
    ensures r == 0 <==> a == b
  {
    if a == [] then (if b == [] then 0 else -1)
    else if b == [] then 1
    else if a[0] != b[0] then a[0] as int - b[0] as int
    else CompareBytes(a[1..], b[1..])
  }

  /** Length of the longest common prefix. */
  function Common(a: Bytes, b: Bytes): (n: nat)
    ensures n <= |a| && n <= |b| && a[..n] == b[..n]
    ensures n < |a| && n < |b| ==> a[n] != b[n]
  {
    if a == [] || b == [] || a[0] != b[0] then 0
    else
      var n := 1 + Common(a[1..], b[1..]);
      assert a[..n] == [a[0]] + a[1..][..n - 1] && b[..n] == [b[0]] + b[1..][..n - 1];
      n
  }

  lemma {:induction false} CommonIs(a: Bytes, b: Bytes, n: nat)
    requires n <= |a| && n <= |b| && a[..n] == b[..n]
    requires n < |a| && n < |b| ==> a[n] != b[n]
    ensures Common(a, b) == n
  {
    if n > 0 {
      assert a[0] == a[..n][0] && b[0] == b[..n][0];
      assert a[1..][..n - 1] == a[..n][1..] && b[1..][..n - 1] == b[..n][1..];
      CommonIs(a[1..], b[1..], n - 1);
    }
  }
}
