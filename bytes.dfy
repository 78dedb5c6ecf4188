/**
 * Octets, fixed-width unsigned integers and their big-endian (network order)
 * encoding, as used by the RFB wire format, plus the Option type.
 */
module Bytes {

  type byte = b: int | 0 <= b < 0x100
  type u16 = n: int | 0 <= n < 0x1_0000
  type u32 = n: int | 0 <= n < 0x1_0000_0000

  datatype Option<+T> = None | Some(value: T)

  /** 256 to the power n: the number of values n bytes can hold. */
  function Pow256(n: nat): (r: nat)
    ensures r >= 1
  {
    if n == 0 then 1 else 256 * Pow256(n - 1)
  }

  /** The n-byte big-endian encoding of v, most significant byte first (Rust's `to_be_bytes`). */
  function ToBe(v: nat, n: nat): (r: seq<byte>)
    requires v < Pow256(n)
    ensures |r| == n
  {
    if n == 0 then []
    else
      assert v / 256 < Pow256(n - 1);
      ToBe(v / 256, n - 1) + [v % 256]
  }

  /** The value of a big-endian byte string (Rust's `from_be_bytes`). */
  function FromBe(s: seq<byte>): (r: nat)
    ensures r < Pow256(|s|)
  {
    if s == [] then 0
    else
      var hi := FromBe(s[..|s| - 1]);
      assert hi * 256 <= (Pow256(|s| - 1) - 1) * 256;
      hi * 256 + s[|s| - 1]
  }

  /** Decoding an encoding gives back the value. */
  lemma {:induction false} FromBeToBe(v: nat, n: nat)
    requires v < Pow256(n)
    ensures FromBe(ToBe(v, n)) == v
  {
    if n > 0 {
      var s := ToBe(v, n);
      assert s[..n - 1] == ToBe(v / 256, n - 1);
      FromBeToBe(v / 256, n - 1);
    }
  }

  /** Encoding a decoded string at its own width gives back the same bytes. */
  lemma {:induction false} ToBeFromBe(s: seq<byte>)
    ensures ToBe(FromBe(s), |s|) == s
  {
    if s != [] {
      var n := |s|;
      var hi := FromBe(s[..n - 1]);
      assert FromBe(s) / 256 == hi;
      assert FromBe(s) % 256 == s[n - 1];
      ToBeFromBe(s[..n - 1]);
      assert s == s[..n - 1] + [s[n - 1]];
    }
  }

  /** Two bytes read as a big-endian u16: `u16::from_be_bytes([hi, lo])`. */
  lemma TwoBytes(hi: byte, lo: byte)
    ensures FromBe([hi, lo]) == hi * 256 + lo
  {
    assert [hi, lo][..1] == [hi];
    assert [hi][..0] == [];
  }

  /** Four bytes read as a big-endian u32: `u32::from_be_bytes([b0, b1, b2, b3])`. */
  lemma FourBytes(b0: byte, b1: byte, b2: byte, b3: byte)
    ensures FromBe([b0, b1, b2, b3]) == ((b0 * 256 + b1) * 256 + b2) * 256 + b3
  {
    assert [b0, b1, b2, b3][..3] == [b0, b1, b2];
    assert [b0, b1, b2][..2] == [b0, b1];
    TwoBytes(b0, b1);
  }

  /** Bitwise AND of two naturals, bit by bit from the least significant. */
  function BitAnd(a: nat, b: nat): nat
  {
    if a == 0 || b == 0 then 0 else 2 * BitAnd(a / 2, b / 2) + (a % 2) * (b % 2)
  }

  /** `m & 0x07` keeps the low three bits: the remainder modulo 8. */
  lemma LowThreeBits(m: nat)
    ensures BitAnd(m, 0x07) == m % 8
  {
    var m2 := m / 2;
    var m4 := m / 4;
    assert BitAnd(m4, 1) == m4 % 2;
    assert m2 / 2 == m4;
    assert BitAnd(m2, 3) == 2 * (m4 % 2) + m2 % 2;
    assert m % 8 == 4 * (m4 % 2) + 2 * (m2 % 2) + m % 2;
  }
}
