/** Bytes, machine integers and their big-endian encoding. A `std::string` is
    modelled by the bytes it holds. */
module Bytes {

  type byte = b: int | 0 <= b < 0x100
  type uint16 = x: int | 0 <= x < 0x1_0000
  type Text = seq<byte>

  const TWO32: int := 0x1_0000_0000
  const TWO63: int := 0x8000_0000_0000_0000
  const TWO64: int := 0x1_0000_0000_0000_0000

  datatype Option<+T> = None | Some(value: T)

  function Pow256(k: nat): (p: nat)
    ensures p > 0
  {
    if k == 0 then 1 else 256 * Pow256(k - 1)
  }

  lemma Powers()
    ensures Pow256(1) == 0x100 && Pow256(2) == 0x1_0000 && Pow256(3) == 0x100_0000
    ensures Pow256(4) == TWO32 && Pow256(8) == TWO64 && 128 * Pow256(7) == TWO63
  {
    assert Pow256(2) == 0x1_0000;
    assert Pow256(4) == TWO32;
    assert Pow256(6) == 0x1_0000_0000_0000;
    assert Pow256(7) == 0x100_0000_0000_0000;
  }

  /** The low `width` bytes of the two's-complement representation of `n`, most
      significant first. Dafny's division rounds toward minus infinity here, as an
      arithmetic right shift does. */
  function BigEndian(n: int, width: nat): (s: seq<byte>)
    ensures |s| == width
    decreases width
  {
    if width == 0 then [] else BigEndian(n / 256, width - 1) + [n % 256]
  }

  /** The unsigned value of a big-endian byte string. */
  function Value(s: seq<byte>): nat {
    if s == [] then 0 else 256 * Value(s[..|s| - 1]) + s[|s| - 1]
  }

  lemma DivMod(n: int, d: int, q: int, r: int)
    requires 0 <= r < d && n == d * q + r
    ensures n / d == q && n % d == r
  {
    var k := q - n / d;
    assert d * k == n % d - r;
    MulMagnitude(d, k);
  }

  lemma MulMagnitude(d: int, k: int)
    requires d > 0
    ensures k >= 1 ==> d * k >= d
    ensures k <= -1 ==> d * k <= -d
  {
  }

  lemma DivTwice(n: int, p: int)
    requires p > 0
    ensures n / (256 * p) == (n / 256) / p
    ensures n % (256 * p) == 256 * ((n / 256) % p) + n % 256
  {
    var q, r := (n / 256) / p, (n / 256) % p;
    assert n / 256 == p * q + r;
    assert (256 * p) * q == 256 * (p * q);
    DivMod(n, 256 * p, q, 256 * r + n % 256);
  }

  lemma {:induction false} ValueBound(s: seq<byte>)
    ensures Value(s) < Pow256(|s|)
  {
    if s != [] {
      ValueBound(s[..|s| - 1]);
    }
  }

  /** Decoding undoes encoding, up to the width of the field. */
  lemma {:induction false} ValueOfBigEndian(n: int, width: nat)
    ensures Value(BigEndian(n, width)) == n % Pow256(width)
    decreases width
  {
    if width > 0 {
      ValueOfBigEndian(n / 256, width - 1);
      assert BigEndian(n, width)[..width - 1] == BigEndian(n / 256, width - 1);
      DivTwice(n, Pow256(width - 1));
    }
  }

  /** Encoding undoes decoding, for every byte string. */
  lemma {:induction false} BigEndianOfValue(s: seq<byte>)
    ensures BigEndian(Value(s), |s|) == s
  {
    if s != [] {
      BigEndianOfValue(s[..|s| - 1]);
    }
  }

  /** Byte `i` is what the shift-and-mask expression of the source yields. */
  lemma {:induction false} ShiftAndMask(n: int, width: nat, i: nat)
    requires i < width
    ensures BigEndian(n, width)[i] == (n / Pow256(width - 1 - i)) % 256
    decreases width
  {
    if i < width - 1 {
      ShiftAndMask(n / 256, width - 1, i);
      DivTwice(n, Pow256(width - 2 - i));
    }
  }

  lemma ValueOfFour(b: seq<byte>)
    requires |b| == 4
    ensures Value(b) == b[0] as int * 0x100_0000 + b[1] as int * 0x1_0000 + b[2] as int * 0x100 + b[3] as int < TWO32
  {
    var b3, b2, b1 := b[..3], b[..2], b[..1];
    assert b3[..2] == b2 && b2[..1] == b1 && b1[..0] == [];
    assert Value(b1) == b[0];
    assert Value(b2) == 256 * (b[0] as int) + b[1] as int;
    assert Value(b3) == 256 * Value(b2) + b[2];
  }

  lemma ValueOfTwo(b: seq<byte>)
    requires |b| == 2
    ensures Value(b) == b[0] as int * 0x100 + b[1] as int < 0x1_0000
  {
    assert b[..1][..0] == [];
    assert Value(b[..1]) == b[0];
  }

  /** Reading a 64-bit pattern as a signed number. */
  function Signed64(n: int): (r: int)
    ensures -TWO63 <= r < TWO63
  {
    var u := n % TWO64;
    if u < TWO63 then u else u - TWO64
  }
}
