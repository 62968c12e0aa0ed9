/** Bytes, and unsigned integers as little-endian bytes. */
module Bytes {

  import opened Common

  newtype Byte = x: int | 0 <= x < 256

  function Pow256(n: nat): (r: nat)
    ensures r >= 1
  {
    if n == 0 then 1 else 256 * Pow256(n - 1)
  }

  /** The low `n` bytes of `v`. */
  function LE(v: nat, n: nat): (s: seq<Byte>)
    ensures |s| == n
    decreases n
  {
    if n == 0 then [] else [(v % 256) as Byte] + LE(v / 256, n - 1)
  }

  function FromLE(s: seq<Byte>): (v: nat)
  {
    if |s| == 0 then 0 else s[0] as int + 256 * FromLE(s[1..])
  }

  /** Byte `i` is digit `i` of the value to the base 256, the lowest first. */
  lemma {:induction false} Digit(v: nat, n: nat, i: nat)
    requires i < n
    ensures LE(v, n)[i] as int == v / Pow256(i) % 256
  {
    if i > 0 {
      Digit(v / 256, n - 1, i - 1);
      DivDiv(v, 256, Pow256(i - 1));
    }
  }

  /** A value that fits comes back from its bytes. */
  lemma {:induction false} RoundTrip(v: nat, n: nat)
    requires v < Pow256(n)
    ensures FromLE(LE(v, n)) == v
  {
    if n > 0 {
      RoundTrip(v / 256, n - 1);
      assert LE(v, n)[1..] == LE(v / 256, n - 1);
    }
  }

  /** Bytes come back from their value. */
  lemma {:induction false} BytesBack(s: seq<Byte>)
    ensures FromLE(s) < Pow256(|s|) && LE(FromLE(s), |s|) == s
  {
    if |s| > 0 {
      BytesBack(s[1..]);
      assert FromLE(s) / 256 == FromLE(s[1..]) && FromLE(s) % 256 == s[0] as int;
      assert s == [s[0]] + s[1..];
    }
  }

  lemma Pow256Values()
    ensures Pow256(1) == 0x100 && Pow256(2) == 0x1_0000 && Pow256(4) == 0x1_0000_0000 &&
        Pow256(8) == 0x1_0000_0000_0000_0000
  {
    assert Pow256(0) == 1 && Pow256(1) == 256 * Pow256(0) && Pow256(2) == 256 * Pow256(1) &&
        Pow256(3) == 256 * Pow256(2);
    assert Pow256(4) == 256 * Pow256(3) && Pow256(5) == 256 * Pow256(4) && Pow256(6) == 256 * Pow256(5);
    assert Pow256(7) == 256 * Pow256(6) && Pow256(8) == 256 * Pow256(7);
  }

  /** `t` with `b` written at `pos`. */
  function Splice(t: seq<Byte>, pos: nat, b: seq<Byte>): (r: seq<Byte>)
    requires pos + |b| <= |t|
    ensures |r| == |t|
  {
    t[..pos] + b + t[pos + |b|..]
  }

  /** `n` bytes of `t` from `pos`. */
  function Slice(t: seq<Byte>, pos: nat, n: nat): (r: seq<Byte>)
    requires pos + n <= |t|
    ensures |r| == n
  {
    t[pos..pos + n]
  }

  lemma SpliceReads(t: seq<Byte>, pos: nat, b: seq<Byte>)
    requires pos + |b| <= |t|
    ensures Slice(Splice(t, pos, b), pos, |b|) == b
  {
  }

  lemma SpliceKeeps(t: seq<Byte>, pos: nat, b: seq<Byte>, at: nat, n: nat)
    requires pos + |b| <= |t| && at + n <= |t| && (at + n <= pos || pos + |b| <= at)
    ensures Slice(Splice(t, pos, b), at, n) == Slice(t, at, n)
  {
    var r := Splice(t, pos, b);
    forall i | at <= i < at + n ensures r[i] == t[i] {}
  }

  /** `n` rounded up to a multiple of the power of two `a`. */
  function AlignUp(n: nat, a: nat): nat {
    if a == 8 then (n + 7) / 8 * 8 else if a == 4 then (n + 3) / 4 * 4 else if a == 2 then (n + 1) / 2 * 2 else n
  }

  /** It is the least multiple that is not below `n`. */
  lemma AlignUpLeast(n: nat, a: nat, m: nat)
    requires a in {1, 2, 4, 8}
    ensures AlignUp(n, a) % a == 0 && n <= AlignUp(n, a) < n + a
    ensures m >= n && m % a == 0 ==> AlignUp(n, a) <= m
  {
    if a == 8 { Multiple8(n, m); } else if a == 4 { Multiple4(n, m); } else if a == 2 { Multiple2(n, m); }
  }

  lemma Multiple8(n: nat, m: nat)
    ensures var r := (n + 7) / 8 * 8; r % 8 == 0 && n <= r < n + 8 && (m >= n && m % 8 == 0 ==> r <= m)
  {
    var q := (n + 7) / 8;
    assert n <= 8 * q < n + 8;
  }

  lemma Multiple4(n: nat, m: nat)
    ensures var r := (n + 3) / 4 * 4; r % 4 == 0 && n <= r < n + 4 && (m >= n && m % 4 == 0 ==> r <= m)
  {
    var q := (n + 3) / 4;
    assert n <= 4 * q < n + 4;
  }

  lemma Multiple2(n: nat, m: nat)
    ensures var r := (n + 1) / 2 * 2; r % 2 == 0 && n <= r < n + 2 && (m >= n && m % 2 == 0 ==> r <= m)
  {
    var q := (n + 1) / 2;
    assert n <= 2 * q < n + 2;
  }

  lemma AlignUpAbove(n: nat, a: nat)
    ensures n <= AlignUp(n, a)
  {
  }

  lemma AlignUpBelow(n: nat, a: nat, k: nat)
    requires a in {1, 2, 4, 8} && n <= 8 * k
    ensures AlignUp(n, a) <= 8 * k && AlignUp(n, a) + a <= 8 * (k + 1)
  {
    if a == 8 { assert (n + 7) / 8 <= k; }
    else if a == 4 { assert (n + 3) / 4 <= 2 * k; }
    else if a == 2 { assert (n + 1) / 2 <= 4 * k; }
  }

  lemma AlignUpWithin(n: nat, a: nat)
    requires a in {1, 2, 4, 8}
    ensures AlignUp(n, a) <= n + 7
  {
  }
}
