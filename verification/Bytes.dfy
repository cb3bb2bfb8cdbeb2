/** Bytes and fixed-width big-endian integers, as encoding/binary writes and reads them. */
module Bytes {
  type byte = x: int | 0 <= x < 256

  function Pow256(k: nat): (p: nat)
    ensures p > 0
  {
    if k == 0 then 1 else 256 * Pow256(k - 1)
  }

  /** The low `k` bytes of `n`, most significant first (so a wider `n` wraps, as a Go conversion does). */
  function BigEndian(n: nat, k: nat): (b: seq<byte>)
    ensures |b| == k
  {
    if k == 0 then [] else BigEndian(n / 256, k - 1) + [n % 256]
  }

  function FromBigEndian(b: seq<byte>): nat
  {
    if b == [] then 0 else 256 * FromBigEndian(b[..|b| - 1]) + b[|b| - 1]
  }

  lemma {:induction false} BigEndianRoundTrip(n: nat, k: nat)
    requires n < Pow256(k)
    ensures FromBigEndian(BigEndian(n, k)) == n
  {
    if k > 0 {
      BigEndianRoundTrip(n / 256, k - 1);
      assert BigEndian(n, k)[..k - 1] == BigEndian(n / 256, k - 1);
    }
  }

  /** Reading bytes and writing the value back gives the bytes. */
  lemma {:induction false} BigEndianOfValue(b: seq<byte>)
    ensures BigEndian(FromBigEndian(b), |b|) == b
  {
    if b != [] {
      var init, last := b[..|b| - 1], b[|b| - 1] as int;
      BigEndianOfValue(init);
      assert (256 * FromBigEndian(init) + last) / 256 == FromBigEndian(init);
      assert b == init + [b[|b| - 1]];
    }
  }

  /** A number that needs fewer bytes starts with a zero. */
  lemma {:induction false} FirstIsZero(n: nat, k: nat)
    requires k > 0 && n < Pow256(k - 1)
    ensures BigEndian(n, k)[0] == 0
  {
    if k > 1 {
      FirstIsZero(n / 256, k - 1);
    }
  }

  lemma FromSnoc(s: seq<byte>, x: byte)
    ensures FromBigEndian(s + [x]) == 256 * FromBigEndian(s) + x
  {
    assert (s + [x])[..|s|] == s;
  }

  /** Four bytes, the most significant first. */
  lemma FourBytes(a: byte, b: byte, c: byte, d: byte)
    ensures FromBigEndian([a, b, c, d]) == 0x100_0000 * a + 0x1_0000 * b + 0x100 * c + d
  {
    FromSnoc([], a);
    FromSnoc([a], b);
    FromSnoc([a, b], c);
    FromSnoc([a, b, c], d);
    assert [] + [a] == [a] && [a] + [b] == [a, b] && [a, b] + [c] == [a, b, c] && [a, b, c] + [d] == [a, b, c, d];
  }

  lemma Pow256Values()
    ensures Pow256(4) == 0x1_0000_0000
    ensures Pow256(8) == 0x1_0000_0000_0000_0000
  {
  }
}
