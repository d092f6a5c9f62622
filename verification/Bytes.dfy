/** Bytes, 4-byte words and the little-endian integers of `int.to_bytes` / `int.from_bytes`. */
module Bytes {
  type byte = x: int | 0 <= x < 256
  type Word = x: int | 0 <= x < 0x1_0000_0000

  const WORD_LIMIT := 0x1_0000_0000

  function Pow256(n: nat): (r: nat)
    ensures r >= 1
  {
    if n == 0 then 1 else 256 * Pow256(n - 1)
  }

  /** The `n` low-order bytes of `v`, least significant first. */
  function ToLE(v: nat, n: nat): (s: seq<byte>)
    ensures |s| == n
  {
    if n == 0 then [] else [v % 256] + ToLE(v / 256, n - 1)
  }

  function FromLE(s: seq<byte>): nat {
    if |s| == 0 then 0 else s[0] + 256 * FromLE(s[1..])
  }

  function Zeros(n: nat): (s: seq<byte>)
    ensures |s| == n
    ensures forall i :: 0 <= i < n ==> s[i] == 0
  {
    seq(n, _ => 0)
  }

  lemma {:induction false} FromToLE(v: nat, n: nat)
    requires v < Pow256(n)
    ensures FromLE(ToLE(v, n)) == v
  {
    if n == 0 {
    } else {
      FromToLE(v / 256, n - 1);
      assert ToLE(v, n)[1..] == ToLE(v / 256, n - 1);
    }
  }

  /** The byte at place `i` of a number. */
  function ByteAt(v: nat, i: nat): byte {
    v / Pow256(i) % 256
  }

  /** Dividing by 256 and then by `m` is dividing by both at once. */
  lemma DivideTwice(v: nat, m: nat)
    requires m > 0
    ensures v / 256 / m == v / (256 * m)
  {
    var q := v / 256 / m;
    var r := v / 256 % m;
    assert v / 256 == q * m + r;
    var low := 256 * r + v % 256;
    assert v == q * (256 * m) + low && low < 256 * m;
    QuotientIs(v, 256 * m, q, low);
  }

  lemma Multiples(k: int, m: nat)
    ensures k >= 1 ==> k * m >= m
    ensures k <= -1 ==> k * m + m <= 0
  {
    assert k * m == (k - 1) * m + m == (k + 1) * m - m;
  }

  lemma QuotientIs(v: nat, d: nat, q: nat, low: nat)
    requires low < d && v == q * d + low
    ensures v / d == q
  {
    var k := v / d - q;
    assert k * d == (v / d) * d - q * d == low - v % d;
    Multiples(k, d);
  }

  /** Least significant first. */
  lemma {:induction false} BytesOfLE(v: nat, n: nat, i: nat)
    requires i < n
    ensures ToLE(v, n)[i] == ByteAt(v, i)
  {
    if i > 0 {
      BytesOfLE(v / 256, n - 1, i - 1);
      DivideTwice(v, Pow256(i - 1));
    }
  }

  lemma Pow256Word()
    ensures Pow256(4) == WORD_LIMIT
  {
    assert Pow256(1) == 256;
    assert Pow256(2) == 0x1_0000;
    assert Pow256(3) == 0x100_0000;
  }

  lemma WordRoundTrip(v: Word)
    ensures FromLE(ToLE(v, 4)) == v
  {
    Pow256Word();
    FromToLE(v, 4);
  }
}
