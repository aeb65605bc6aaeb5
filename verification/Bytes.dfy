/** Bytes, 32-byte hashes and the fixed-width little-endian integers of the wire format. */
module Bytes {
  import opened Wrappers

  type Byte = b: int | 0 <= b < 256

  function Zeros(n: nat): (s: seq<Byte>)
    ensures |s| == n && forall i :: 0 <= i < n ==> s[i] == 0
  {
    if n == 0 then [] else Zeros(n - 1) + [0]
  }

  type Hash = h: seq<Byte> | |h| == 32 witness Zeros(32)

  function ZeroHash(): (h: Hash)
    ensures forall i :: 0 <= i < 32 ==> h[i] == 0
  {
    seq(32, i => 0)
  }

  const EMPTY_HASH: Hash := ZeroHash()

  type U32 = n: nat | n < 0x1_0000_0000
  type U64 = n: nat | n < 0x1_0000_0000_0000_0000

  /** 256 to the power k. */
  function Pow256(k: nat): (p: nat)
    ensures p >= 1
  {
    if k == 0 then 1 else 256 * Pow256(k - 1)
  }

  lemma {:induction false} Pow256Values()
    ensures Pow256(1) == 0x100
    ensures Pow256(2) == 0x1_0000
    ensures Pow256(3) == 0x100_0000
    ensures Pow256(4) == 0x1_0000_0000
    ensures Pow256(8) == 0x1_0000_0000_0000_0000
  {
    assert Pow256(2) == 256 * Pow256(1);
    assert Pow256(4) == 256 * Pow256(3) == 0x1_0000_0000;
    assert Pow256(6) == 256 * Pow256(5) == 0x1_0000_0000_0000;
    assert Pow256(8) == 256 * Pow256(7);
  }

  /** The k low-order bytes of n, least significant first (to_le_bytes). */
  function LittleEndian(n: nat, k: nat): (s: seq<Byte>)
    ensures |s| == k
  {
    if k == 0 then [] else [n % 256] + LittleEndian(n / 256, k - 1)
  }

  /** The number whose bytes are s, least significant first (from_le_bytes). */
  function FromLittleEndian(s: seq<Byte>): (n: nat)
    ensures n < Pow256(|s|)
  {
    if s == [] then 0 else s[0] + 256 * FromLittleEndian(s[1..])
  }

  lemma {:induction false} LittleEndianRoundTrip(n: nat, k: nat)
    requires n < Pow256(k)
    ensures FromLittleEndian(LittleEndian(n, k)) == n
  {
    if k > 0 {
      var s := LittleEndian(n, k);
      assert s[1..] == LittleEndian(n / 256, k - 1);
      LittleEndianRoundTrip(n / 256, k - 1);
    }
  }

  /** The last byte is the most significant one. */
  lemma {:induction false} LastIsMostSignificant(s: seq<Byte>, b: Byte)
    ensures FromLittleEndian(s + [b]) == FromLittleEndian(s) + b * Pow256(|s|)
  {
    if s != [] {
      var p := Pow256(|s| - 1);
      assert (s + [b])[1..] == s[1..] + [b];
      LastIsMostSignificant(s[1..], b);
      assert b * (256 * p) == 256 * (b * p);
    }
  }

  /** The bytes of a 32-bit number, written out. */
  lemma {:induction false} FourBytes(b0: Byte, b1: Byte, b2: Byte, b3: Byte)
    ensures FromLittleEndian([b0, b1, b2, b3]) == b0 + 0x100 * b1 + 0x1_0000 * b2 + 0x100_0000 * b3
  {
    Pow256Values();
    assert FromLittleEndian([b0]) == b0 + 256 * FromLittleEndian([]);
    assert [b0] + [b1] == [b0, b1] && [b0, b1] + [b2] == [b0, b1, b2] && [b0, b1, b2] + [b3] == [b0, b1, b2, b3];
    LastIsMostSignificant([b0], b1);
    LastIsMostSignificant([b0, b1], b2);
    LastIsMostSignificant([b0, b1, b2], b3);
  }

  lemma {:induction false} FromLittleEndianRoundTrip(s: seq<Byte>)
    ensures LittleEndian(FromLittleEndian(s), |s|) == s
  {
    if s != [] {
      FromLittleEndianRoundTrip(s[1..]);
      assert FromLittleEndian(s) / 256 == FromLittleEndian(s[1..]);
    }
  }

  /** Reads a k-byte little-endian integer at an offset, as the Buffer trait does. */
  function GetLittleEndian(buffer: seq<Byte>, offset: nat, k: nat): (r: Result<nat>)
    ensures r.Ok? <==> offset + k <= |buffer|
    ensures r.Ok? ==> r.value < Pow256(k)
  {
    if offset + k <= |buffer| then Ok(FromLittleEndian(buffer[offset..offset + k])) else Err
  }

  /** Reading back a little-endian integer written after a prefix, whatever follows it. */
  lemma {:induction false} GetWritten(prefix: seq<Byte>, n: nat, k: nat, rest: seq<Byte>)
    requires n < Pow256(k)
    ensures GetLittleEndian(prefix + LittleEndian(n, k) + rest, |prefix|, k) == Ok(n)
  {
    var buffer := prefix + LittleEndian(n, k) + rest;
    assert buffer[|prefix|..|prefix| + k] == LittleEndian(n, k);
    LittleEndianRoundTrip(n, k);
  }
}
