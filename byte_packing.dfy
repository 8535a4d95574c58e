/**
 * Packing of successive stream bytes into Java `int` and `long` values, most
 * significant byte first, as `readInt` and `readLong` of the Skipjack reader do
 * with `(prng << 8) | (0xff & b)`.
 *
 * Values are kept as unbounded integers; the only place where Java's fixed width
 * shows is the final reinterpretation of the 32- or 64-bit pattern as a signed
 * number, written out by ToJavaInt and ToJavaLong.
 */
module BytePacking {

  const TwoTo31: int := 0x8000_0000
  const TwoTo32: int := 0x1_0000_0000
  const TwoTo63: int := 0x8000_0000_0000_0000
  const TwoTo64: int := 0x1_0000_0000_0000_0000

  /** 256 to the power n: the number of values n bytes can hold. */
  function Pow256(n: nat): (r: nat)
    ensures r >= 1
  {
    if n == 0 then 1 else 256 * Pow256(n - 1)
  }

  /** The unsigned value of `s` read most significant byte first. */
  function BigEndian(s: seq<bv8>): nat
  {
    if s == [] then 0 else BigEndian(s[..|s| - 1]) * 256 + s[|s| - 1] as nat
  }

  /** Appending a byte shifts the packed value left by eight bits and adds the byte. */
  lemma BigEndianSnoc(s: seq<bv8>, b: bv8)
    ensures BigEndian(s + [b]) == BigEndian(s) * 256 + b as nat
  {
    assert (s + [b])[..|s|] == s;
  }

  /** The `n` bytes of `v`, most significant first: the inverse of BigEndian. */
  function ToBigEndian(v: nat, n: nat): (r: seq<bv8>)
    ensures |r| == n
  {
    if n == 0 then [] else ToBigEndian(v / 256, n - 1) + [(v % 256) as bv8]
  }

  /** `n` bytes never pack to more than `n` bytes can hold. */
  lemma {:induction false} BigEndianBound(s: seq<bv8>)
    ensures BigEndian(s) < Pow256(|s|)
  {
    if s != [] {
      var init := s[..|s| - 1];
      BigEndianBound(init);
      calc {
        BigEndian(s);
        BigEndian(init) * 256 + s[|s| - 1] as nat;
      <= (Pow256(|init|) - 1) * 256 + 255;
        Pow256(|s|) - 1;
      }
    }
  }

  /** Packing then splitting gives the bytes back. */
  lemma {:induction false} SplitPacked(s: seq<bv8>)
    ensures ToBigEndian(BigEndian(s), |s|) == s
  {
    if s != [] {
      var init := s[..|s| - 1];
      var v := BigEndian(s);
      assert v / 256 == BigEndian(init) && v % 256 == s[|s| - 1] as nat;
      SplitPacked(init);
      assert s == init + [s[|s| - 1]];
    }
  }

  /** Java's view of a 32-bit pattern as a signed `int`. */
  function ToJavaInt(u: nat): (r: int)
    requires u < TwoTo32
    ensures -TwoTo31 <= r < TwoTo31
    ensures r % TwoTo32 == u
  {
    if u < TwoTo31 then u else u - TwoTo32
  }

  /** Java's view of a 64-bit pattern as a signed `long`. */
  function ToJavaLong(u: nat): (r: int)
    requires u < TwoTo64
    ensures -TwoTo63 <= r < TwoTo63
    ensures r % TwoTo64 == u
  {
    if u < TwoTo63 then u else u - TwoTo64
  }

  /** The four bytes packed by `readInt` can be read back from the `int` it returns. */
  lemma IntBytesRecoverable(s: seq<bv8>)
    requires |s| == 4
    ensures BigEndian(s) < TwoTo32
    ensures ToBigEndian(ToJavaInt(BigEndian(s)) % TwoTo32, 4) == s
  {
    BigEndianBound(s);
    SplitPacked(s);
  }

  /** The eight bytes packed by `readLong` can be read back from the `long` it returns. */
  lemma LongBytesRecoverable(s: seq<bv8>)
    requires |s| == 8
    ensures BigEndian(s) < TwoTo64
    ensures ToBigEndian(ToJavaLong(BigEndian(s)) % TwoTo64, 8) == s
  {
    BigEndianBound(s);
    SplitPacked(s);
  }
}
